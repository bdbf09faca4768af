/**
 What the two regular expressions match, as filter/email/email.go and filter/unique_names.go write them down:
 character classes by code point, where a match begins, and how far it goes.
 */
module Patterns {
  import opened Text
  import opened Pieces
  import opened NameScan
  import opened EmailScan
  import opened EmailLaws

  predicate AlnumCode(n: int) { 48 <= n <= 57 || 65 <= n <= 90 || 97 <= n <= 122 }

  /** \w, [a-zA-Z0-9._%+-] and [a-zA-Z0-9-]. */
  lemma CharClasses(c: char)
    ensures var n := c as int;
            && (IsWord(c) <==> AlnumCode(n) || n == 95)
            && (IsLocalChar(c) <==> AlnumCode(n) || n == 95 || n == 37 || n == 43 || n == 45 || n == 46)
            && (IsDomainChar(c) <==> AlnumCode(n) || n == 45)
  {
  }

  /** Characters of a local part from i on, an at sign at a, and the beginning of a label. */
  predicate AddressAt(text: string, i: nat, a: nat)
  {
    && i < a && a + 1 < |text| && text[a] == '@' && IsDomainChar(text[a + 1])
    && forall k :: i <= k < a ==> IsLocalChar(text[k])
  }

  /** An address begins at a word boundary, if characters of a local part lead to an at sign and a label. */
  lemma MatchAtIff(text: string, i: nat)
    ensures MatchAt(text, i) <==>
            && i < |text| && (i > 0 && IsWord(text[i - 1])) != IsWord(text[i])
            && exists a: nat :: AddressAt(text, i, a)
  {
    if MatchAt(text, i) {
      assert AddressAt(text, i, LocalEnd(text, i));
    } else if i < |text| && Boundary(text, i) && exists a: nat :: AddressAt(text, i, a) {
      var a: nat :| AddressAt(text, i, a);
      LocalEndIs(text, i, a);
    }
  }

  /** Labels of domain characters between dots, none of them empty. */
  predicate IsDomain(text: string)
  {
    NoEmptyLabel(Split(text)) && forall k :: 0 <= k < |text| ==> IsDomainChar(text[k]) || text[k] == '.'
  }

  /** The domain of a match is as long as possible: neither one more character nor one more label follows. */
  lemma MatchEndIs(text: string, i: nat)
    requires MatchAt(text, i)
    ensures var a, e := LocalEnd(text, i), MatchEnd(text, i);
            && i < a < e <= |text| && text[a] == '@' && IsDomain(text[a + 1..e])
            && (e < |text| ==> !IsDomainChar(text[e]))
            && (e + 1 < |text| && text[e] == '.' ==> !IsDomainChar(text[e + 1]))
  {
    hide LocalEnd, DotRuns, DomainRun, Boundary, Split, IsDomainChar;
    var a, e := LocalEnd(text, i), MatchEnd(text, i);
    DomainHasNoEmptyLabel(text, i);
    MatchHasRun(text, i);
    DotRunsStops(text, DomainRun(text, a + 1));
    DotRunsIsAll(text, DomainRun(text, a + 1));
    var domain := text[a + 1..e];
    forall k | 0 <= k < |domain|
      ensures IsDomainChar(domain[k]) || domain[k] == '.'
    {
      if a + 1 + k >= DomainRun(text, a + 1) {
        DotRunsChars(text, DomainRun(text, a + 1), a + 1 + k);
      }
    }
  }

  /** Nothing but listed names is replaced, in whatever case they stand in the text. */
  lemma {:induction false} OnlyListedNames(names: seq<string>, text: string, i: nat, ps: seq<Piece>, j: nat)
    requires i <= |text| && Scans(names, text, i, ps) && j < |ps| && ps[j].Hit?
    ensures exists k :: 0 <= k < |names| && Fold(names[k]) == Fold(ps[j].orig)
    decreases |text| - i
  {
    hide FitsAt, LongestFit;
    ScansHead(names, text, i, ps);
    if j > 0 {
      OnlyListedNames(names, text, i + Step(names, text, i), ps[1..], j - 1);
    } else {
      LongestFitIsLongest(names, text, i);
      var n := LongestFit(names, text, i);
      var k :| 0 <= k < |names| && |names[k]| == n && FitsAt(names[k], text, i);
      FitsFold(names[k], text, i);
    }
  }

  lemma FitsFold(name: string, text: string, i: nat)
    requires FitsAt(name, text, i)
    ensures i + |name| <= |text| && Fold(text[i..i + |name|]) == Fold(name)
  {
  }

  /** What regexp.QuoteMeta escapes: backslash . + * ? ( ) | [ ] { } ^ and the dollar sign. */
  predicate MetaCode(n: int)
  {
    n == 92 || n == 46 || 42 <= n <= 43 || n == 63 || 40 <= n <= 41 || n == 124 || n == 91 || n == 93 || n == 123
    || n == 125 || n == 94 || n == 36
  }

  /** Every special character has a backslash of its own in front, and nothing else has. */
  predicate EscapedWell(s: string)
  {
    if s == "" then true
    else if s[0] == '\\' then |s| > 1 && MetaCode(s[1] as int) && EscapedWell(s[2..])
    else !MetaCode(s[0] as int) && EscapedWell(s[1..])
  }

  /** So an alternative has no special meaning left. */
  lemma {:induction false} QuotedIsEscaped(name: string)
    ensures EscapedWell(QuoteMeta(name))
  {
    if name != "" {
      QuotedIsEscaped(name[1..]);
      var escaped := QuoteMeta(name);
      if IsMeta(name[0]) {
        assert escaped[2..] == QuoteMeta(name[1..]);
      } else {
        assert escaped[1..] == QuoteMeta(name[1..]);
      }
    }
  }
}
