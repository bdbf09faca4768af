/**
 filter/email/email.go: what the address expression matches, how an address is taken apart, and the
 pieces a redaction of it consists of.
 */
module EmailScan {
  import opened Text
  import opened Pieces

  predicate IsLocalChar(c: char) { IsLetter(c) || IsDigit(c) || c in {'.', '_', '%', '+', '-'} }

  predicate IsDomainChar(c: char) { IsLetter(c) || IsDigit(c) || c == '-' }

  /** Where the run of local-part characters from i on ends. */
  function LocalEnd(text: string, i: nat): (j: nat)
    requires i <= |text|
    ensures i <= j <= |text| && (j < |text| ==> !IsLocalChar(text[j]))
    ensures forall k :: i <= k < j ==> IsLocalChar(text[k])
    decreases |text| - i
  {
    if i < |text| && IsLocalChar(text[i]) then LocalEnd(text, i + 1) else i
  }

  /** Where the run of domain characters from i on ends. */
  function DomainRun(text: string, i: nat): (j: nat)
    requires i <= |text|
    ensures i <= j <= |text| && (j < |text| ==> !IsDomainChar(text[j]))
    ensures forall k :: i <= k < j ==> IsDomainChar(text[k])
    decreases |text| - i
  {
    if i < |text| && IsDomainChar(text[i]) then DomainRun(text, i + 1) else i
  }

  /** As many further labels, each behind a dot, as follow at i. */
  function DotRuns(text: string, i: nat): (j: nat)
    requires i <= |text|
    ensures i <= j <= |text|
    decreases |text| - i
  {
    if i < |text| && text[i] == '.' && DomainRun(text, i + 1) > i + 1 then DotRuns(text, DomainRun(text, i + 1))
    else i
  }

  /** An address begins at i: a word boundary, a local part, an at sign and a domain. */
  predicate MatchAt(text: string, i: nat)
  {
    && i < |text| && Boundary(text, i)
    && var a := LocalEnd(text, i);
       a > i && a < |text| && text[a] == '@' && DomainRun(text, a + 1) > a + 1
  }

  function MatchEnd(text: string, i: nat): (e: nat)
    requires MatchAt(text, i)
    ensures LocalEnd(text, i) + 1 < e <= |text|
  {
    DotRuns(text, DomainRun(text, LocalEnd(text, i) + 1))
  }

  /** The first position at which an address begins in a match looked at by itself. */
  function InnerStart(found: string, s: nat): (r: nat)
    requires s <= |found|
    ensures s <= r <= |found| && (r < |found| ==> MatchAt(found, r))
    ensures forall k :: s <= k < r ==> !MatchAt(found, k)
    decreases |found| - s
  {
    if s == |found| || MatchAt(found, s) then s else InnerStart(found, s + 1)
  }

  /** The parts between dots; there is always at least one. */
  function Split(s: string): (labels: seq<string>)
    ensures labels != []
  {
    if s == "" then [""]
    else if s[0] == '.' then [""] + Split(s[1..])
    else
      var labels := Split(s[1..]);
      [[s[0]] + labels[0]] + labels[1..]
  }

  function JoinDots(labels: seq<string>): string
  {
    if labels == [] then ""
    else if |labels| == 1 then labels[0]
    else labels[0] + "." + JoinDots(labels[1..])
  }

  lemma SplitFirst(s: string)
    ensures s == "" ==> Split(s) == [""]
    ensures s != "" ==>
              var labels := Split(s[1..]);
              Split(s) == if s[0] == '.' then [""] + labels else [[s[0]] + labels[0]] + labels[1..]
  {
  }

  lemma JoinOne(labels: seq<string>)
    requires |labels| == 1
    ensures JoinDots(labels) == labels[0]
  {
  }

  lemma JoinMore(labels: seq<string>)
    requires |labels| > 1
    ensures JoinDots(labels) == labels[0] + "." + JoinDots(labels[1..])
  {
  }

  lemma JoinEmptyFirst(labels: seq<string>)
    requires labels != []
    ensures JoinDots([""] + labels) == "." + JoinDots(labels)
  {
    hide *;
    JoinMore([""] + labels);
    assert ([""] + labels)[1..] == labels;
    assert "" + "." + JoinDots(labels) == "." + JoinDots(labels);
  }

  lemma JoinCharFirst(labels: seq<string>, c: char)
    requires labels != []
    ensures JoinDots([[c] + labels[0]] + labels[1..]) == [c] + JoinDots(labels)
  {
    hide *;
    var more := [[c] + labels[0]] + labels[1..];
    if |labels| == 1 {
      JoinOne(labels);
      JoinOne(more);
    } else {
      JoinMore(labels);
      JoinMore(more);
      assert more[1..] == labels[1..];
      var rest := "." + JoinDots(labels[1..]);
      assert labels[0] + "." + JoinDots(labels[1..]) == labels[0] + rest;
      assert ([c] + labels[0]) + "." + JoinDots(labels[1..]) == [c] + (labels[0] + rest);
    }
  }

  lemma {:induction false} JoinSplit(s: string)
    ensures JoinDots(Split(s)) == s
  {
    SplitFirst(s);
    if s == "" {
      JoinNothing();
    } else {
      hide *;
      JoinSplit(s[1..]);
      JoinEmptyFirst(Split(s[1..]));
      JoinCharFirst(Split(s[1..]), s[0]);
      assert s == [s[0]] + s[1..];
    }
  }

  lemma JoinNothing()
    ensures JoinDots([""]) == ""
  {
  }

  /** Split takes texts around a dot apart separately. */
  lemma {:induction false} SplitBesideDot(x: string, y: string)
    ensures Split(x + "." + y) == Split(x) + Split(y)
  {
    hide *;
    var text := x + "." + y;
    SplitFirst(text);
    SplitFirst(x);
    if x == "" {
      assert text[0] == '.' && text[1..] == y;
    } else {
      assert text[0] == x[0] && text[1..] == x[1..] + "." + y;
      SplitBesideDot(x[1..], y);
      ConsBeside(Split(x[1..]), Split(y), x[0]);
    }
  }

  lemma ConsBeside(front: seq<string>, back: seq<string>, c: char)
    requires front != []
    ensures [""] + (front + back) == ([""] + front) + back
    ensures var all := front + back;
            [[c] + all[0]] + all[1..] == ([[c] + front[0]] + front[1..]) + back
  {
    assert (front + back)[1..] == front[1..] + back;
  }

  lemma {:induction false} SplitWord(x: string)
    requires '.' !in x
    ensures Split(x) == [x]
  {
    hide *;
    SplitFirst(x);
    if x != "" {
      assert x[0] in x && '.' !in x[1..];
      SplitWord(x[1..]);
      assert [x[0]] + x[1..] == x;
      assert [x[1..]][1..] == [];
    }
  }

  predicate IsAlpha(s: string) { s != "" && IsLetters(s) }

  /** The labels of a domain, and its top-level domain if the last of several labels is alphabetic. */
  function SplitDomain(domain: string): (r: (seq<string>, string))
    ensures r.0 != []
  {
    var labels := Split(domain);
    if |labels| > 1 && IsAlpha(labels[|labels| - 1]) then (labels[..|labels| - 1], labels[|labels| - 1])
    else (labels, "")
  }

  function LabelCount(part: string): nat { if part == "" then 0 else 1 }

  /** Number of pieces for labels with dots between them; an empty label has none. */
  function PieceCount(labels: seq<string>): nat
    requires labels != []
    decreases |labels|
  {
    var k := |labels| - 1;
    (if k == 0 then 0 else PieceCount(labels[..k]) + 1) + LabelCount(labels[k])
  }

  /** Every label that is not empty is replaced, the dots stay. */
  predicate Labelled(labels: seq<string>, ps: seq<Piece>)
    requires labels != []
    decreases |labels|
  {
    var k := |labels| - 1;
    var f := if k == 0 then 0 else PieceCount(labels[..k]) + 1;
    && |ps| == PieceCount(labels)
    && (labels[k] != "" ==> ps[f].Hit? && ps[f].orig == labels[k])
    && (k > 0 ==> ps[f - 1] == Lit('.') && Labelled(labels[..k], ps[..f - 1]))
  }

  /** The replacement for a top-level domain, if there is one. */
  datatype Suffix = Keep | Replace(suffix: string)

  function SuffixFor(suffixes: map<string, string>, tld: string): Suffix
  {
    if Fold(tld) in suffixes then Replace(suffixes[Fold(tld)])
    else if "*" in suffixes then Replace(suffixes["*"])
    else Keep
  }

  function DomainCount(suffixes: map<string, string>, domain: string): nat
  {
    var (labels, tld) := SplitDomain(domain);
    PieceCount(labels) + if tld != "" && SuffixFor(suffixes, tld).Keep? then 1 + |tld| else 0
  }

  /** The domain: a replaced top-level domain is one piece together with the label before it. */
  predicate DomainPieces(suffixes: map<string, string>, domain: string, ps: seq<Piece>)
  {
    var (labels, tld) := SplitDomain(domain);
    var n, last := PieceCount(labels), |labels| - 1;
    if tld == "" then Labelled(labels, ps)
    else if SuffixFor(suffixes, tld).Keep? then
      |ps| == n + 1 + |tld| && Labelled(labels, ps[..n]) && ps[n..] == Lits("." + tld)
    else
      && |ps| == n && n > 0 && ps[n - 1].Combo?
      && ps[n - 1] == Combo(labels[last], tld, ps[n - 1].rep, SuffixFor(suffixes, tld).suffix)
      && Labelled(labels, ps[n - 1 := Hit(labels[last], ps[n - 1].rep)])
  }

  function AddressCount(suffixes: map<string, string>, local: string, domain: string): nat
  {
    PieceCount(Split(local)) + 1 + DomainCount(suffixes, domain)
  }

  predicate AddressPieces(suffixes: map<string, string>, local: string, domain: string, ps: seq<Piece>)
  {
    var n := PieceCount(Split(local));
    && |ps| > n
    && Labelled(Split(local), ps[..n]) && ps[n] == Lit('@') && DomainPieces(suffixes, domain, ps[n + 1..])
  }

  function Gones(text: string): (ps: seq<Piece>)
    ensures |ps| == |text| && forall i :: 0 <= i < |ps| ==> ps[i] == Gone(text[i])
  {
    seq(|text|, i requires 0 <= i < |text| => Gone(text[i]))
  }

  function MatchCount(suffixes: map<string, string>, found: string): nat
  {
    var s := InnerStart(found, 0);
    if s == |found| then |found|
    else
      var a, e := LocalEnd(found, s), MatchEnd(found, s);
      s + AddressCount(suffixes, found[s..a], found[a + 1..e]) + (|found| - e)
  }

  /**
   What becomes of a match. The expression is applied to it once more, without the text before it: no
   address may begin at its first character then, and what comes before the one found is dropped.
   */
  predicate MatchPieces(suffixes: map<string, string>, found: string, ps: seq<Piece>)
  {
    var s := InnerStart(found, 0);
    if s == |found| then ps == Lits(found)
    else
      var a, e := LocalEnd(found, s), MatchEnd(found, s);
      var n := AddressCount(suffixes, found[s..a], found[a + 1..e]);
      && |ps| == s + n + (|found| - e)
      && ps[..s] == Gones(found[..s])
      && AddressPieces(suffixes, found[s..a], found[a + 1..e], ps[s..s + n])
      && ps[s + n..] == Gones(found[e..])
  }

  /** The pieces of a scan for addresses from position i on. */
  predicate EmailScans(suffixes: map<string, string>, text: string, i: nat, ps: seq<Piece>)
    requires i <= |text|
    decreases |text| - i
  {
    if i == |text| then ps == []
    else if MatchAt(text, i) then
      var e := MatchEnd(text, i);
      var n := MatchCount(suffixes, text[i..e]);
      && |ps| >= n
      && MatchPieces(suffixes, text[i..e], ps[..n])
      && EmailScans(suffixes, text, e, ps[n..])
    else
      && ps != [] && ps[0] == Lit(text[i])
      && EmailScans(suffixes, text, i + 1, ps[1..])
  }
}
