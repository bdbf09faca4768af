/**
 filter/unique_names.go: which names the regular expression finds in a text. The alternatives are
 literal names, compared without regard to case, between word boundaries.
 */
module NameScan {
  import opened Text
  import opened Pieces

  /** The name stands at position i of the text as a whole word. */
  predicate FitsAt(name: string, text: string, i: nat)
  {
    && i + |name| <= |text|
    && Fold(text[i..i + |name|]) == Fold(name)
    && Boundary(text, i) && Boundary(text, i + |name|)
  }

  /** Length of the longest listed name that stands at position i; 0 if none does. */
  function LongestFit(names: seq<string>, text: string, i: nat): (n: nat)
    ensures n > 0 ==> i + n <= |text|
  {
    if names == [] then 0
    else
      var n := LongestFit(names[1..], text, i);
      if FitsAt(names[0], text, i) && |names[0]| >= n then |names[0]| else n
  }

  lemma {:induction false} LongestFitIsLongest(names: seq<string>, text: string, i: nat)
    ensures var n := LongestFit(names, text, i);
            && (n > 0 ==> exists k :: 0 <= k < |names| && |names[k]| == n && FitsAt(names[k], text, i))
            && forall k :: 0 <= k < |names| && FitsAt(names[k], text, i) ==> |names[k]| <= n
  {
    hide FitsAt;
    if names != [] {
      var rest := names[1..];
      LongestFitIsLongest(rest, text, i);
      var n := LongestFit(names, text, i);
      if n > 0 && !(FitsAt(names[0], text, i) && |names[0]| == n) {
        var k :| 0 <= k < |rest| && |rest[k]| == n && FitsAt(rest[k], text, i);
        assert names[k + 1] == rest[k];
      }
      assert forall k :: 1 <= k < |names| ==> names[k] == rest[k - 1];
    }
  }

  /** Length of the first alternative that stands at position i; 0 if none does. */
  function FirstFit(names: seq<string>, text: string, i: nat): nat
  {
    if names == [] then 0
    else if FitsAt(names[0], text, i) then |names[0]|
    else FirstFit(names[1..], text, i)
  }

  /** Characters that a regular expression escapes. */
  predicate IsMeta(c: char)
  {
    c in {'\\', '.', '+', '*', '?', '(', ')', '|', '[', ']', '{', '}', '^', '$'}
  }

  function QuoteMeta(name: string): string
  {
    if name == "" then ""
    else (if IsMeta(name[0]) then ['\\', name[0]] else [name[0]]) + QuoteMeta(name[1..])
  }

  /** The name that an escaped alternative matches. */
  function Unquote(escaped: string): string
  {
    if escaped == "" then ""
    else if escaped[0] == '\\' && |escaped| > 1 then [escaped[1]] + Unquote(escaped[2..])
    else [escaped[0]] + Unquote(escaped[1..])
  }

  lemma {:induction false} UnquoteQuoteMeta(name: string)
    ensures Unquote(QuoteMeta(name)) == name
  {
    if name != "" {
      var rest := QuoteMeta(name[1..]);
      UnquoteQuoteMeta(name[1..]);
      var escaped := QuoteMeta(name);
      if IsMeta(name[0]) {
        assert escaped[2..] == rest;
      } else {
        assert escaped[1..] == rest;
      }
      assert [name[0]] + name[1..] == name;
    }
  }

  /** A longer name that agrees with a shorter one as far as that goes, up to case, is longer escaped too. */
  lemma {:induction false} QuotedLongerToo(a: string, b: string)
    requires |a| <= |b| && Fold(a) == Fold(b)[..|a|]
    ensures |a| < |b| ==> |QuoteMeta(a)| < |QuoteMeta(b)|
    ensures |QuoteMeta(a)| <= |QuoteMeta(b)|
  {
    if a == "" {
      if b != "" {
        assert |QuoteMeta(b)| >= 1;
      }
    } else {
      assert ToLower(a[0]) == Fold(a)[0] == Fold(b)[..|a|][0] == ToLower(b[0]);
      assert Fold(a[1..]) == Fold(a)[1..] && Fold(b[1..])[..|a| - 1] == Fold(b)[..|a|][1..];
      QuotedLongerToo(a[1..], b[1..]);
    }
  }

  /** The alternatives as they stand in the expression: the longest escaped name first. */
  predicate LongestQuotedFirst(names: seq<string>)
  {
    forall i, j :: 0 <= i < j < |names| ==> |QuoteMeta(names[i])| >= |QuoteMeta(names[j])|
  }

  /** Two names that stand at the same place. */
  lemma FitsAreComparable(a: string, b: string, text: string, i: nat)
    requires FitsAt(a, text, i) && FitsAt(b, text, i) && |a| < |b|
    ensures |QuoteMeta(a)| < |QuoteMeta(b)|
  {
    assert Fold(a) == Fold(b)[..|a|] by {
      FoldSlice(text, i, i + |a|);
      FoldSlice(text, i, i + |b|);
      assert Fold(text)[i..i + |b|][..|a|] == Fold(text)[i..i + |a|];
    }
    QuotedLongerToo(a, b);
  }

  /** Sorting by escaped length still makes every match the longest one possible. */
  lemma {:induction false} FirstFitIsLongest(names: seq<string>, text: string, i: nat)
    requires LongestQuotedFirst(names)
    ensures var n := FirstFit(names, text, i);
            && (n > 0 ==> exists k :: 0 <= k < |names| && |names[k]| == n && FitsAt(names[k], text, i))
            && forall k :: 0 <= k < |names| && FitsAt(names[k], text, i) ==> |names[k]| <= n
  {
    if names != [] {
      if FitsAt(names[0], text, i) {
        forall k | 0 <= k < |names| && FitsAt(names[k], text, i)
          ensures |names[k]| <= |names[0]|
        {
          if |names[0]| < |names[k]| {
            FitsAreComparable(names[0], names[k], text, i);
          }
        }
      } else {
        FirstFitIsLongest(names[1..], text, i);
        assert forall k :: 1 <= k < |names| ==> names[k] == names[1..][k - 1];
      }
    }
  }

  /** For every such order of the names, the expression matches the longest name that stands there. */
  lemma OrderFindsLongest(order: seq<string>, names: seq<string>, text: string, i: nat)
    requires LongestQuotedFirst(order)
    requires forall name :: name in order <==> name in names
    ensures FirstFit(order, text, i) == LongestFit(names, text, i)
  {
    hide FitsAt, FirstFit, LongestFit;
    FirstFitIsLongest(order, text, i);
    LongestFitIsLongest(names, text, i);
    var n, r := FirstFit(order, text, i), LongestFit(names, text, i);
    if n > 0 {
      var k :| 0 <= k < |order| && |order[k]| == n && FitsAt(order[k], text, i);
      assert order[k] in names;
    }
    if r > 0 {
      var k :| 0 <= k < |names| && |names[k]| == r && FitsAt(names[k], text, i);
      assert names[k] in order;
    }
  }

  /**
   The pieces of a scan of text from position i on: at every position the longest name that stands
   there is replaced, and the scan goes on behind it.
   */
  ghost predicate Scans(names: seq<string>, text: string, i: nat, ps: seq<Piece>)
    requires i <= |text|
    decreases |text| - i
  {
    var n := LongestFit(names, text, i);
    if i == |text| then ps == []
    else if n > 0 then
      && ps != [] && ps[0].Hit? && ps[0].orig == text[i..i + n]
      && Scans(names, text, i + n, ps[1..])
    else
      && ps != [] && ps[0] == Lit(text[i])
      && Scans(names, text, i + 1, ps[1..])
  }

  /** How much of the text the first piece of a scan takes. */
  function Step(names: seq<string>, text: string, i: nat): (k: nat)
    requires i < |text|
    ensures 1 <= k && i + k <= |text|
  {
    var n := LongestFit(names, text, i);
    if n > 0 then n else 1
  }

  lemma ScansHead(names: seq<string>, text: string, i: nat, ps: seq<Piece>)
    requires i < |text| && Scans(names, text, i, ps)
    ensures var k := Step(names, text, i);
            && ps != [] && (ps[0].Lit? || ps[0].Hit?)
            && SourceOf(ps[0]) == text[i..i + k]
            && (LongestFit(names, text, i) > 0 <==> ps[0].Hit?)
            && Scans(names, text, i + k, ps[1..])
  {
    hide LongestFit, FitsAt, Source;
  }

  lemma ScansEnd(names: seq<string>, text: string, ps: seq<Piece>)
    requires Scans(names, text, |text|, ps)
    ensures ps == [] && Source(ps) == text[|text|..] && Plain(ps)
  {
  }

  lemma SourceWithHead(ps: seq<Piece>, text: string, i: nat, k: nat)
    requires i + k <= |text| && ps != [] && (ps[0].Lit? || ps[0].Hit?)
    requires SourceOf(ps[0]) == text[i..i + k] && Source(ps[1..]) == text[i + k..] && Plain(ps[1..])
    ensures Source(ps) == text[i..] && Plain(ps)
  {
    assert text[i..] == text[i..i + k] + text[i + k..];
    assert forall j :: 1 <= j < |ps| ==> ps[j] == ps[1..][j - 1];
  }

  lemma {:induction false} ScansSource(names: seq<string>, text: string, i: nat, ps: seq<Piece>)
    requires i <= |text| && Scans(names, text, i, ps)
    ensures Source(ps) == text[i..] && Plain(ps)
    decreases |text| - i
  {
    hide *;
    if i == |text| {
      ScansEnd(names, text, ps);
    } else {
      ScansHead(names, text, i, ps);
      var k := Step(names, text, i);
      ScansSource(names, text, i + k, ps[1..]);
      SourceWithHead(ps, text, i, k);
    }
  }

  /** Names begin and end with a word character. */
  predicate WordEnds(names: seq<string>)
  {
    forall k :: 0 <= k < |names| ==> names[k] != "" && IsWord(names[k][0]) && IsWord(names[k][|names[k]| - 1])
  }

  lemma NameStandsAlone(name: string, text: string, i: nat)
    requires FitsAt(name, text, i) && name != "" && IsWord(name[0]) && IsWord(name[|name| - 1])
    ensures var n := |name|;
            && i + n <= |text| && IsWord(text[i]) && IsWord(text[i + n - 1])
            && (i > 0 ==> !IsWord(text[i - 1])) && (i + n < |text| ==> !IsWord(text[i + n]))
  {
  }

  /** A match begins and ends with a word character, and has none of them next to it. */
  lemma MatchStandsAlone(names: seq<string>, text: string, i: nat)
    requires WordEnds(names) && LongestFit(names, text, i) > 0
    ensures var n := LongestFit(names, text, i);
            && i + n <= |text| && IsWord(text[i]) && IsWord(text[i + n - 1])
            && (i > 0 ==> !IsWord(text[i - 1])) && (i + n < |text| ==> !IsWord(text[i + n]))
  {
    hide LongestFit, FitsAt;
    LongestFitIsLongest(names, text, i);
    var n := LongestFit(names, text, i);
    var k :| 0 <= k < |names| && |names[k]| == n && FitsAt(names[k], text, i);
    NameStandsAlone(names[k], text, i);
  }
}
