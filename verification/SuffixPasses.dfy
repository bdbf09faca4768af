/**
 Several unredaction passes over a text whose last layer replaced labels together with top-level domains.
 Where no suffix occurs the combined entries make no difference, and no pass brings a suffix up.
 */
module SuffixPasses {
  import opened Text
  import opened Table
  import opened Unredaction
  import opened Pieces
  import opened RoundTrip
  import opened EmailScan
  import opened SuffixLaws

  /** The table without the combined entries. */
  function LabelPart(m: Entries): (l: Entries)
    ensures LetterKeys(l)
    ensures forall key :: key in l <==> key in m && IsLabelKey(key)
    ensures forall key :: key in l ==> l[key] == m[key]
  {
    map key | key in m && IsLabelKey(key) :: m[key]
  }

  /** Every suffix that was written is one of these. */
  predicate Written(ss: set<string>, all: seq<Piece>)
  {
    forall j :: 0 <= j < |all| && all[j].Combo? ==> all[j].suffix in ss
  }

  /** The text does not go on with a dot and a suffix. */
  predicate NoneAhead(ss: set<string>, text: string)
  {
    forall s :: s in ss ==> !("." + s <= text)
  }

  /** A dot with a suffix behind it occurs nowhere. */
  predicate SuffixFree(ss: set<string>, text: string)
  {
    forall s :: s in ss ==> !Contains(text, "." + s)
  }

  predicate AlphaSuffixes(ss: set<string>)
  {
    forall s :: s in ss ==> IsAlpha(s)
  }

  lemma JointHasSuffix(m: Entries, all: seq<Piece>, ss: set<string>, key: string)
    requires TwoKinds(m, all) && Written(ss, all) && key in m && !IsLabelKey(key)
    ensures !SuffixFree(ss, key)
  {
    hide IsLabelKey;
    var j :| 0 <= j < |all| && IsJoint(m, all, key, j);
    var r, t := all[j].rep, "." + all[j].suffix;
    assert (r + t)[|r|..|r| + |t|] == t;
    assert OccursAt(key, t, |r|);
    assert Contains(key, t);
  }

  lemma FrontIsFree(ss: set<string>, text: string, k: nat)
    requires SuffixFree(ss, text) && k <= |text|
    ensures SuffixFree(ss, text[..k]) && SuffixFree(ss, text[k..])
  {
    hide Contains;
    assert "" + text[..k] + text[k..] == text && text[..k] + text[k..] + "" == text;
    forall s | s in ss
      ensures !Contains(text[..k], "." + s) && !Contains(text[k..], "." + s)
    {
      if Contains(text[..k], "." + s) {
        ContainsPart("", text[..k], text[k..], "." + s);
      }
      if Contains(text[k..], "." + s) {
        ContainsPart(text[..k], text[k..], "", "." + s);
      }
    }
  }

  lemma SameHead(m: Entries, all: seq<Piece>, ss: set<string>, text: string)
    requires TwoKinds(m, all) && Written(ss, all) && SuffixFree(ss, text)
    ensures LongestKey(m, text, |text|) == LongestKey(LabelPart(m), text, |text|)
  {
    hide TwoKinds, Written, SuffixFree, IsLabelKey, LetterKeys;
    var n := LongestKey(LabelPart(m), text, |text|);
    forall k | n < k <= |text|
      ensures text[..k] !in m
    {
      FrontIsFree(ss, text, k);
      if text[..k] in m && !IsLabelKey(text[..k]) {
        JointHasSuffix(m, all, ss, text[..k]);
        assert false;
      }
    }
    LongestKeyIs(m, text, n);
  }

  /** Where no suffix occurs, the combined entries make no difference. */
  lemma {:induction false} SamePass(m: Entries, all: seq<Piece>, ss: set<string>, text: string)
    requires TwoKinds(m, all) && Written(ss, all) && SuffixFree(ss, text)
    ensures Unredacted(m, text) == Unredacted(LabelPart(m), text)
    decreases |text|
  {
    hide TwoKinds, Written, SuffixFree, IsLabelKey, LetterKeys, Unredacted;
    if text == "" {
      EmptyText(m);
      EmptyText(LabelPart(m));
    } else {
      SameHead(m, all, ss, text);
      var n := LongestKey(m, text, |text|);
      var rest := text[if n > 0 then n else 1..];
      TakesHead(m, text, n, rest);
      TakesHead(LabelPart(m), text, n, rest);
      FrontIsFree(ss, text, |text| - |rest|);
      SamePass(m, all, ss, rest);
    }
  }

  /** No pass with the given table brings a suffix up. */
  ghost predicate StaysFree(ss: set<string>, l: Entries, text: string)
  {
    forall k: nat :: SuffixFree(ss, Passes(l, k, text))
  }

  lemma NextStaysFree(ss: set<string>, l: Entries, text: string)
    requires StaysFree(ss, l, text)
    ensures SuffixFree(ss, text) && StaysFree(ss, l, Unredacted(l, text))
  {
    hide SuffixFree;
    assert Passes(l, 0, text) == text;
    forall k: nat
      ensures SuffixFree(ss, Passes(l, k, Unredacted(l, text)))
    {
      assert Passes(l, k + 1, text) == Passes(l, k, Unredacted(l, text));
    }
  }

  lemma {:induction false} SamePasses(m: Entries, all: seq<Piece>, ss: set<string>, n: nat, text: string)
    requires TwoKinds(m, all) && Written(ss, all) && StaysFree(ss, LabelPart(m), text)
    ensures Passes(m, n, text) == Passes(LabelPart(m), n, text)
    decreases n
  {
    hide TwoKinds, Written, SuffixFree, StaysFree, LetterKeys, IsLabelKey, Unredacted;
    if n > 0 {
      NextStaysFree(ss, LabelPart(m), text);
      SamePass(m, all, ss, text);
      SamePasses(m, all, ss, n - 1, Unredacted(m, text));
    }
  }

  /** A pass over one stretch between breaks: a replacement comes back, characters are unredacted. */
  function BlockOnce(l: Entries, block: seq<Piece>): string
  {
    if |block| == 1 && Asks(block[0]) then SourceOf(block[0]) else Unredacted(l, Source(block))
  }

  /** What the first pass leaves, stretch by stretch. */
  function Once(l: Entries, ps: seq<Piece>): string
    decreases |ps|
  {
    var j := FirstBreak(ps);
    BlockOnce(l, ps[..j]) + if j == |ps| then "" else [ps[j].c] + Once(l, ps[j + 1..])
  }

  lemma OnceApart(l: Entries, ps: seq<Piece>, j: nat)
    requires j == FirstBreak(ps)
    ensures j == |ps| ==> ps[..j] == ps && Once(l, ps) == BlockOnce(l, ps)
    ensures j < |ps| ==> Once(l, ps) == BlockOnce(l, ps[..j]) + [ps[j].c] + Once(l, ps[j + 1..])
  {
    hide BlockOnce;
    if j == |ps| {
      assert ps[..j] == ps;
      assert BlockOnce(l, ps) + "" == BlockOnce(l, ps);
    } else {
      Associates(BlockOnce(l, ps[..j]), [ps[j].c], Once(l, ps[j + 1..]));
    }
  }

  lemma BlockOnceIs(l: Entries, n: nat, block: seq<Piece>)
    requires AllLits(block) || (|block| == 1 && Asks(block[0]))
    ensures || Passes(l, n, BlockOnce(l, block)) == Passes(l, n, Source(block))
            || Passes(l, n, BlockOnce(l, block)) == Passes(l, n + 1, Source(block))
    ensures |block| == 1 && Asks(block[0]) ==> BlockOnce(l, block) == Source(block)
    ensures AllLits(block) ==> Passes(l, n, BlockOnce(l, block)) == Passes(l, n + 1, Source(block))
  {
    if |block| == 1 && Asks(block[0]) {
      assert block == [block[0]];
      OneText(block[0]);
    }
  }

  /** The later passes see no difference to the text before. */
  lemma {:induction false} OnceThenPasses(l: Entries, n: nat, ps: seq<Piece>)
    requires LetterKeys(l) && NoneGone(ps) && Flanked(ps) && NoKeyIn(l, Passes(l, n, Source(ps)))
    ensures Passes(l, n, Once(l, ps)) == Passes(l, n, Source(ps))
    decreases |ps|
  {
    hide Passes, LetterKeys, Flanked, NoKeyIn, Once, BlockOnce, AllLits;
    BlockShape(ps);
    var j := FirstBreak(ps);
    OnceApart(l, ps, j);
    var a := ps[..j];
    BlockOnceIs(l, n, a);
    if j < |ps| {
      var c, b := ps[j].c, ps[j + 1..];
      CutAt(ps, j);
      PassesApart(l, n, Source(a), c, Source(b));
      PassesApart(l, n, BlockOnce(l, a), c, Once(l, b));
      NoKeyInParts(l, Passes(l, n, Source(a)), c, Passes(l, n, Source(b)));
      OnceThenPasses(l, n, b);
    }
    LastPass(l, n, Source(a));
    NothingToRestore(l, Passes(l, n, Source(a)));
  }

  /** A suffix of letters does not reach across a character that is no letter. */
  lemma FreeApart(ss: set<string>, a: string, c: char, b: string)
    requires AlphaSuffixes(ss) && !IsLetter(c)
    ensures SuffixFree(ss, a + [c] + b) <==> SuffixFree(ss, a) && SuffixFree(ss, [c] + b)
  {
    hide Contains, IsLetter;
    var text := a + [c] + b;
    assert text == a + ([c] + b) && text[..|a|] == a && text[|a|..] == [c] + b;
    if SuffixFree(ss, text) {
      FrontIsFree(ss, text, |a|);
    }
    if SuffixFree(ss, a) && SuffixFree(ss, [c] + b) {
      forall s | s in ss
        ensures !Contains(text, "." + s)
      {
        NotAcross(s, a, c, b);
      }
    }
  }

  lemma NotAcross(s: string, a: string, c: char, b: string)
    requires IsLetters(s) && !IsLetter(c)
    ensures Contains(a + [c] + b, "." + s) ==> Contains(a, "." + s) || Contains([c] + b, "." + s)
  {
    hide IsLetter;
    var text, part := a + [c] + b, "." + s;
    if Contains(text, part) {
      var i :| 0 <= i <= |text| && OccursAt(text, part, i);
      if i >= |a| {
        assert ([c] + b)[i - |a|..i - |a| + |part|] == text[i..i + |part|];
        assert OccursAt([c] + b, part, i - |a|);
      } else {
        if i + |part| > |a| {
          LetterWithin(text, s, i, |a|);
          assert false;
        }
        assert a[i..i + |part|] == text[i..i + |part|];
        assert OccursAt(a, part, i);
      }
    }
  }

  lemma LetterWithin(text: string, s: string, i: nat, k: nat)
    requires IsLetters(s) && OccursAt(text, "." + s, i) && i < k <= i + |s|
    ensures IsLetter(text[k])
  {
    hide IsLetter;
    assert text[i..i + |"." + s|][k - i] == s[k - i - 1];
  }

  /** Each stretch is what some number of passes leaves of it, so no suffix comes up. */
  lemma {:induction false} OnceIsFree(ss: set<string>, l: Entries, k: nat, before: string, ps: seq<Piece>)
    requires AlphaSuffixes(ss) && LetterKeys(l) && NoneGone(ps) && Flanked(ps)
    requires SuffixFree(ss, before + Passes(l, k, Source(ps)))
    requires SuffixFree(ss, before + Passes(l, k + 1, Source(ps)))
    ensures SuffixFree(ss, before + Passes(l, k, Once(l, ps)))
    decreases |ps|
  {
    hide Passes, LetterKeys, Flanked, SuffixFree, AlphaSuffixes, Once, BlockOnce, AllLits;
    BlockShape(ps);
    var j := FirstBreak(ps);
    OnceApart(l, ps, j);
    var a := ps[..j];
    BlockOnceIs(l, k, a);
    if j < |ps| {
      var c, b := ps[j].c, ps[j + 1..];
      CutAt(ps, j);
      CutFree(ss, l, k, before, Source(a), c, Source(b));
      CutFree(ss, l, k + 1, before, Source(a), c, Source(b));
      CutFree(ss, l, k, before, BlockOnce(l, a), c, Once(l, b));
      OnceIsFree(ss, l, k, [c], b);
    }
  }

  lemma CutFree(ss: set<string>, l: Entries, k: nat, before: string, a: string, c: char, b: string)
    requires AlphaSuffixes(ss) && LetterKeys(l) && !IsLetter(c)
    ensures SuffixFree(ss, before + Passes(l, k, a + [c] + b)) <==>
            SuffixFree(ss, before + Passes(l, k, a)) && SuffixFree(ss, [c] + Passes(l, k, b))
  {
    hide *;
    PassesApart(l, k, a, c, b);
    var x, y := Passes(l, k, a), Passes(l, k, b);
    assert before + (x + [c] + y) == (before + x) + [c] + y;
    FreeApart(ss, before + x, c, y);
  }

  lemma OnceStaysFree(ss: set<string>, l: Entries, ps: seq<Piece>)
    requires AlphaSuffixes(ss) && LetterKeys(l) && NoneGone(ps) && Flanked(ps)
    requires StaysFree(ss, l, Source(ps))
    ensures StaysFree(ss, l, Once(l, ps))
  {
    hide AlphaSuffixes, LetterKeys, NoneGone, Flanked, SuffixFree, Once, Passes, Source;
    forall k: nat
      ensures SuffixFree(ss, Passes(l, k, Once(l, ps)))
    {
      var x, y, z := Passes(l, k, Source(ps)), Passes(l, k + 1, Source(ps)), Passes(l, k, Once(l, ps));
      assert "" + x == x && "" + y == y && "" + z == z;
      OnceIsFree(ss, l, k, "", ps);
    }
  }

  /** Letters, and something that is no letter and begins no suffix: both sides are restored by themselves. */
  lemma {:induction false} LettersApart(m: Entries, all: seq<Piece>, ss: set<string>, a: string, rest: string)
    requires TwoKinds(m, all) && Written(ss, all) && IsLetters(a)
    requires (rest != "" ==> !IsLetter(rest[0])) && NoneAhead(ss, rest)
    ensures Unredacted(m, a + rest) == Unredacted(LabelPart(m), a) + Unredacted(m, rest)
    decreases |a|
  {
    hide TwoKinds, Written, NoneAhead, IsLabelKey, LetterKeys, Unredacted, IsLetter;
    var l := LabelPart(m);
    if a == "" {
      EmptyText(l);
      assert a + rest == rest && "" + Unredacted(m, rest) == Unredacted(m, rest);
    } else {
      LettersHead(m, all, ss, a, rest);
      var n := LongestKey(l, a, |a|);
      var k := if n > 0 then n else 1;
      assert (a + rest)[..n] == a[..n] && (a + rest)[0] == a[0] && (a + rest)[k..] == a[k..] + rest;
      TakesHead(m, a + rest, n, a[k..] + rest);
      TakesHead(l, a, n, a[k..]);
      LettersApart(m, all, ss, a[k..], rest);
      var head := if n > 0 then l[a[..n]] else [a[0]];
      Associates(head, Unredacted(l, a[k..]), Unredacted(m, rest));
    }
  }

  lemma LettersHead(m: Entries, all: seq<Piece>, ss: set<string>, a: string, rest: string)
    requires TwoKinds(m, all) && Written(ss, all) && IsLetters(a) && a != ""
    requires (rest != "" ==> !IsLetter(rest[0])) && NoneAhead(ss, rest)
    ensures LongestKey(m, a + rest, |a + rest|) == LongestKey(LabelPart(m), a, |a|)
  {
    hide TwoKinds, Written, NoneAhead, LetterKeys, IsLetter;
    var text, n := a + rest, LongestKey(LabelPart(m), a, |a|);
    assert text[..n] == a[..n];
    forall k | n < k <= |text|
      ensures text[..k] !in m
    {
      if k <= |a| {
        assert text[..k] == a[..k] && IsLabelKey(a[..k]);
      } else {
        NoKeyAhead(m, all, ss, a, rest, k);
      }
    }
    LongestKeyIs(m, text, n);
  }

  lemma NoKeyAhead(m: Entries, all: seq<Piece>, ss: set<string>, a: string, rest: string, k: nat)
    requires TwoKinds(m, all) && Written(ss, all) && IsLetters(a) && |a| < k <= |a + rest|
    requires !IsLetter(rest[0]) && NoneAhead(ss, rest)
    ensures (a + rest)[..k] !in m
  {
    hide IsLetter;
    var key := (a + rest)[..k];
    assert key[|a|] == rest[0];
    if key in m {
      var j :| 0 <= j < |all| && IsJoint(m, all, key, j);
      DotAfterLabelAt(a, rest, all[j].rep, all[j].suffix, k);
      assert false;
    }
  }

  lemma KeyBegins(m: Entries, all: seq<Piece>, key: string)
    requires TwoKinds(m, all) && key in m
    ensures key != "" && IsLetter(key[0])
  {
    hide IsLetter;
    if !IsLabelKey(key) {
      var j :| 0 <= j < |all| && IsJoint(m, all, key, j);
      assert key[0] == all[j].rep[0];
    }
  }

  /** A character that is no letter stays. */
  lemma BreakStays(m: Entries, all: seq<Piece>, c: char, rest: string)
    requires TwoKinds(m, all) && !IsLetter(c)
    ensures Unredacted(m, [c] + rest) == [c] + Unredacted(m, rest)
  {
    hide *;
    var text := [c] + rest;
    forall k | 0 < k <= |text|
      ensures text[..k] !in m
    {
      if text[..k] in m {
        KeyBegins(m, all, text[..k]);
        assert false;
      }
    }
    LongestKeyIs(m, text, 0);
    assert text[1..] == rest;
    TakesHead(m, text, 0, rest);
  }

  /** No dot that was left alone has a suffix behind it in the output. */
  predicate DotsClear(ss: set<string>, ps: seq<Piece>)
  {
    forall i :: 0 <= i < |ps| && ps[i].Lit? ==> NoneAhead(ss, Out(ps[i..]))
  }

  lemma RestIsClear(ss: set<string>, ps: seq<Piece>, j: nat)
    requires DotsClear(ss, ps) && j <= |ps|
    ensures DotsClear(ss, ps[j..])
    ensures j < |ps| && ps[j].Lit? ==> NoneAhead(ss, Out(ps[j..]))
  {
    hide Out, NoneAhead;
    forall i | 0 <= i < |ps[j..]| && ps[j..][i].Lit?
      ensures NoneAhead(ss, Out(ps[j..][i..]))
    {
      assert ps[j..][i..] == ps[j + i..];
    }
  }

  lemma RestInLedger(m: Entries, all: seq<Piece>, ps: seq<Piece>, j: nat)
    requires LabelsIn(m, ps) && OwnEntries(m, ps) && Clear(all, ps) && j <= |ps|
    ensures LabelsIn(m, ps[j..]) && OwnEntries(m, ps[j..]) && Clear(all, ps[j..])
  {
    hide Out, Tail, LabelIn, OwnEntry;
    forall i | 0 <= i < |ps[j..]| && Asks(ps[j..][i])
      ensures ClearAt(all, ps[j..], i)
    {
      assert ClearAt(all, ps, j + i);
      assert ps[j..][i + 1..] == ps[j + i + 1..];
    }
  }

  /** What the first pass makes of the output of a filter for addresses, or for names. */
  lemma {:induction false} OncePass(m: Entries, all: seq<Piece>, ss: set<string>, ps: seq<Piece>)
    requires TwoKinds(m, all) && Written(ss, all) && LabelsIn(m, ps) && OwnEntries(m, ps)
    requires Flanked(ps) && NoneGone(ps) && Clear(all, ps) && DotsClear(ss, ps)
    ensures Unredacted(m, Out(ps)) == Once(LabelPart(m), ps)
    decreases |ps|
  {
    hide *;
    BlockShape(ps);
    var j := FirstBreak(ps);
    var a, rest, l := ps[..j], ps[j..], LabelPart(m);
    OnceApart(l, ps, j);
    assert ps == a + rest;
    TextsConcat(a, rest);
    BlockPass(m, all, ss, ps, j);
    if j == |ps| {
      NoTexts();
      EmptyText(m);
      assert BlockOnce(l, a) + "" == BlockOnce(l, a);
    } else {
      BreakFirst(ps, j);
      var c, b := ps[j].c, ps[j + 1..];
      BreakStays(m, all, c, Out(b));
      RestIsClear(ss, ps, j + 1);
      RestInLedger(m, all, ps, j + 1);
      RestIsNotGoneAt(ps, j + 1);
      OncePass(m, all, ss, b);
      Associates(BlockOnce(l, a), [c], Once(l, b));
    }
  }

  lemma RestIsNotGoneAt(ps: seq<Piece>, j: nat)
    requires NoneGone(ps) && j <= |ps|
    ensures NoneGone(ps[j..])
  {
  }

  lemma BreakFirst(ps: seq<Piece>, j: nat)
    requires j == FirstBreak(ps) < |ps|
    ensures ps[j].Lit? && !IsLetter(ps[j].c) && Out(ps[j..]) == [ps[j].c] + Out(ps[j + 1..])
  {
    LitFirst(ps[j..]);
    assert ps[j..][1..] == ps[j + 1..];
  }

  /** The same for the stretch before the first break. */
  lemma BlockPass(m: Entries, all: seq<Piece>, ss: set<string>, ps: seq<Piece>, j: nat)
    requires TwoKinds(m, all) && Written(ss, all) && LabelsIn(m, ps) && OwnEntries(m, ps)
    requires Flanked(ps) && NoneGone(ps) && Clear(all, ps) && DotsClear(ss, ps) && j == FirstBreak(ps)
    requires AllLits(ps[..j]) || (j == 1 && Asks(ps[0]))
    ensures Unredacted(m, Out(ps[..j]) + Out(ps[j..])) == BlockOnce(LabelPart(m), ps[..j]) + Unredacted(m, Out(ps[j..]))
  {
    hide *;
    var a, rest := ps[..j], Out(ps[j..]);
    if AllLits(a) {
      LitsAreTheSame(a);
      LitsOnce(LabelPart(m), a);
      BlockOfLetters(ps, j);
      if j < |ps| {
        BreakFirst(ps, j);
        RestIsClear(ss, ps, j);
        assert rest[0] == ps[j].c;
      } else {
        assert ps[j..] == [];
        NoTexts();
        NothingAhead(ss);
      }
      LettersApart(m, all, ss, Out(a), rest);
    } else {
      assert a == [ps[0]];
      OneText(ps[0]);
      AskedOnce(LabelPart(m), ps[0]);
      AskedIsRestored(m, all, ps);
    }
  }

  lemma NothingAhead(ss: set<string>)
    ensures NoneAhead(ss, "")
  {
  }

  lemma LitsOnce(l: Entries, block: seq<Piece>)
    requires AllLits(block)
    ensures BlockOnce(l, block) == Unredacted(l, Source(block))
  {
  }

  lemma AskedOnce(l: Entries, p: Piece)
    requires Asks(p)
    ensures BlockOnce(l, [p]) == SourceOf(p)
  {
  }

  lemma BlockOfLetters(ps: seq<Piece>, j: nat)
    requires j == FirstBreak(ps) && AllLits(ps[..j])
    ensures IsLetters(Out(ps[..j]))
  {
    hide Out;
    var a := ps[..j];
    LitsAreTheSame(a);
    forall i | 0 <= i < j
      ensures IsLetter(Out(a)[i])
    {
      assert a[i] == ps[i] && !IsBreak(ps[i]);
    }
  }

  lemma AskedIsRestored(m: Entries, all: seq<Piece>, ps: seq<Piece>)
    requires TwoKinds(m, all) && LabelsIn(m, ps) && OwnEntries(m, ps) && Flanked(ps) && Clear(all, ps)
    requires ps != [] && Asks(ps[0])
    ensures Unredacted(m, OutOf(ps[0]) + Out(ps[1..])) == SourceOf(ps[0]) + Unredacted(m, Out(ps[1..]))
  {
    hide TwoKinds, LabelsIn, OwnEntries, Flanked, Clear, Out, OutOf, Tail, IsLabelKey, Unredacted, IsLetter;
    var p, rest := ps[0], Out(ps[1..]);
    FirstLabelIn(m, ps);
    FirstIsApart(all, ps);
    WrittenText(p);
    WrittenIsTaken(m, all, p.rep, Tail(p), rest);
    OwnsSource(m, ps);
    var whole := OutOf(p);
    var text := whole + rest;
    Associates(p.rep, Tail(p), rest);
    assert text[..|whole|] == whole && text[|whole|..] == rest;
    TakesHead(m, text, |whole|, rest);
  }

  lemma OwnsSource(m: Entries, ps: seq<Piece>)
    requires LabelsIn(m, ps) && OwnEntries(m, ps) && ps != [] && Asks(ps[0])
    ensures OutOf(ps[0]) in m && m[OutOf(ps[0])] == SourceOf(ps[0])
  {
    assert LabelIn(m, ps[0]) && OwnEntry(m, ps[0]);
  }

  /** A layer of labels with suffixes, on top of whatever other layers, is peeled off by the first pass. */
  lemma SuffixesPeelOff(m: Entries, all: seq<Piece>, ss: set<string>, n: nat, ps: seq<Piece>)
    requires TwoKinds(m, all) && Written(ss, all) && AlphaSuffixes(ss) && LabelsIn(m, ps) && OwnEntries(m, ps)
    requires Flanked(ps) && NoneGone(ps) && Clear(all, ps) && DotsClear(ss, ps)
    requires StaysFree(ss, LabelPart(m), Source(ps)) && NoKeyIn(m, Passes(LabelPart(m), n, Source(ps)))
    ensures Passes(m, n + 1, Out(ps)) == Passes(LabelPart(m), n, Source(ps))
  {
    var l := LabelPart(m);
    FewerKeys(m, Passes(l, n, Source(ps)));
    PassThenPasses(m, n, Out(ps));
    hide *;
    OncePass(m, all, ss, ps);
    OnceStaysFree(ss, l, ps);
    SamePasses(m, all, ss, n, Once(l, ps));
    OnceThenPasses(l, n, ps);
  }

  lemma FewerKeys(m: Entries, text: string)
    requires NoKeyIn(m, text)
    ensures NoKeyIn(LabelPart(m), text)
  {
    hide Contains, IsLabelKey;
  }

  lemma PassThenPasses(m: Entries, n: nat, text: string)
    ensures Passes(m, n + 1, text) == Passes(m, n, Unredacted(m, text))
  {
  }

  /** No replacement begins with a suffix. */
  predicate NoneBegin(ss: set<string>, ps: seq<Piece>)
  {
    forall s :: s in ss ==> NoneBegins(s, ps)
  }

  lemma FlankedBehind(ps: seq<Piece>, j: nat)
    requires Flanked(ps) && j <= |ps|
    ensures Flanked(ps[j..])
  {
    forall i | 0 <= i < |ps[j..]| && Asks(ps[j..][i])
      ensures FlankedAt(ps[j..], i)
    {
      assert FlankedAt(ps, j + i);
    }
  }

  /** A dot with a suffix behind it in the output was there before. */
  lemma DotWasThere(s: string, ps: seq<Piece>, i: nat)
    requires IsAlpha(s) && Flanked(ps) && NoneGone(ps) && NoneBegins(s, ps)
    requires i < |ps| && ps[i].Lit? && "." + s <= Out(ps[i..])
    ensures Contains(Source(ps), "." + s)
  {
    hide Flanked, NoneGone, NoneBegins, Out, Source, Contains, IsLetter;
    var b := ps[i + 1..];
    assert ps[i..][1..] == b && ps == ps[..i] + ps[i..];
    LitFirst(ps[i..]);
    SuffixBehindDot(s, ps[i].c, Out(b));
    if b == [] {
      NoTexts();
      assert false;
    }
    if Asks(b[0]) {
      AskedNotInFront(s, ps, i + 1);
      assert false;
    }
    RestIsNotGoneAt(ps, i + 1);
    FirstNotGone(b);
    FlankedBehind(ps, i + 1);
    assert Out(b)[..|s|] == s;
    LettersLeftAlone(b, |s|);
    TextsConcat(ps[..i], ps[i..]);
    FrontOccurs(Source(ps[..i]), "." + s, Source(ps[i..]));
  }

  lemma FrontOccurs(a: string, part: string, b: string)
    requires part <= b
    ensures Contains(a + b, part)
  {
    assert (a + b)[|a|..|a| + |part|] == part;
    assert OccursAt(a + b, part, |a|);
  }

  lemma DotsAreClear(ss: set<string>, ps: seq<Piece>)
    requires AlphaSuffixes(ss) && Flanked(ps) && NoneGone(ps) && NoneBegin(ss, ps) && SuffixFree(ss, Source(ps))
    ensures DotsClear(ss, ps)
  {
    hide Flanked, NoneGone, NoneBegins, Out, Source, Contains, IsAlpha;
    forall i, s | 0 <= i < |ps| && ps[i].Lit? && s in ss
      ensures !("." + s <= Out(ps[i..]))
    {
      if "." + s <= Out(ps[i..]) {
        DotWasThere(s, ps, i);
        assert false;
      }
    }
  }

  /** Suffixes of letters then cannot be mistaken for each other. */
  lemma DotsClearIsClear(all: seq<Piece>, ss: set<string>, ps: seq<Piece>)
    requires AlphaSuffixes(ss) && Written(ss, all) && Flanked(ps) && DotsClear(ss, ps)
    ensures Clear(all, ps)
  {
    hide Out, IsLetter;
    forall i | 0 <= i < |ps| && Asks(ps[i])
      ensures ClearAt(all, ps, i)
    {
      assert FlankedAt(ps, i);
      var rest := ps[i + 1..];
      if rest == [] {
        NoTexts();
        NothingAhead(ss);
      } else {
        LitFirst(rest);
      }
      assert ps[i].Hit? ==> Tail(ps[i]) + Out(rest) == Out(rest) && NoneAhead(ss, Out(rest));
      forall j | 0 <= j < |all| && all[j].Combo? && "." + all[j].suffix <= Tail(ps[i]) + Out(rest)
        ensures 1 + |all[j].suffix| <= |Tail(ps[i])|
      {
        if ps[i].Combo? {
          NotLonger(all[j].suffix, ps[i].suffix, Out(rest));
        }
      }
    }
  }

  lemma NotLonger(s: string, t: string, rest: string)
    requires IsAlpha(s) && (rest != "" ==> !IsLetter(rest[0])) && "." + s <= "." + t + rest
    ensures |s| <= |t|
  {
    if |s| > |t| {
      FirstBehind(s, t, rest);
      assert false;
    }
  }

  lemma FirstBehind(s: string, t: string, rest: string)
    requires "." + s <= "." + t + rest && |s| > |t|
    ensures rest != "" && s[|t|] == rest[0]
  {
    var x, y := "." + s, "." + t + rest;
    assert x[1 + |t|] == y[1 + |t|] == rest[0];
    assert x[1 + |t|] == s[|t|];
  }

  /** Replacing names brings no suffix up. */
  lemma {:induction false} OutIsFree(ss: set<string>, l: Entries, ps: seq<Piece>)
    requires LetterKeys(l) && Plain(ps) && EntriesIn(l, ps) && DotsClear(ss, ps)
    ensures SuffixFree(ss, Out(ps))
  {
    if ps == [] {
      NoTexts();
      NothingIsFree(ss);
    } else {
      hide LetterKeys, DotsClear, SuffixFree, Out;
      RestIsClear(ss, ps, 1);
      RestIsClear(ss, ps, 0);
      assert ps[0..] == ps;
      FirstText(ps);
      OutIsFree(ss, l, ps[1..]);
      if ps[0].Lit? {
        FreeBehindChar(ss, ps[0].c, Out(ps[1..]));
      } else {
        assert EntryIn(l, ps[0]);
        HasLetters(l, ps[0].rep);
        FreeBehindLetters(ss, ps[0].rep, Out(ps[1..]));
      }
    }
  }

  lemma NothingIsFree(ss: set<string>)
    ensures SuffixFree(ss, "")
  {
  }

  lemma HasLetters(l: Entries, key: string)
    requires LetterKeys(l) && key in l
    ensures IsLetters(key)
  {
  }

  lemma FreeBehindChar(ss: set<string>, c: char, text: string)
    requires SuffixFree(ss, text) && NoneAhead(ss, [c] + text)
    ensures SuffixFree(ss, [c] + text)
  {
    hide Contains;
    forall s | s in ss
      ensures !Contains([c] + text, "." + s)
    {
      NotBehindChar([c], text, "." + s);
    }
  }

  lemma FreeBehindLetters(ss: set<string>, rep: string, text: string)
    requires SuffixFree(ss, text) && IsLetters(rep)
    ensures SuffixFree(ss, rep + text)
  {
    hide Contains;
    forall s | s in ss
      ensures !Contains(rep + text, "." + s)
    {
      NotBehindLetters(rep, text, "." + s);
    }
  }

  lemma OccursFurther(a: string, text: string, part: string, i: nat)
    requires OccursAt(a + text, part, i) && i >= |a|
    ensures Contains(text, part)
  {
    assert text[i - |a|..i - |a| + |part|] == (a + text)[i..i + |part|];
    assert OccursAt(text, part, i - |a|);
  }

  lemma NotBehindChar(a: string, text: string, part: string)
    requires |a| == 1
    ensures Contains(a + text, part) ==> Contains(text, part) || part <= a + text
  {
    if Contains(a + text, part) {
      var i :| 0 <= i <= |a + text| && OccursAt(a + text, part, i);
      if i > 0 {
        OccursFurther(a, text, part, i);
      } else {
        assert (a + text)[0..|part|] == part;
      }
    }
  }

  lemma NotBehindLetters(a: string, text: string, part: string)
    requires IsLetters(a) && part != "" && part[0] == '.'
    ensures Contains(a + text, part) ==> Contains(text, part)
  {
    if Contains(a + text, part) {
      var i :| 0 <= i <= |a + text| && OccursAt(a + text, part, i);
      assert part[0] == (a + text)[i];
      if i < |a| {
        assert false;
      }
      OccursFurther(a, text, part, i);
    }
  }

  lemma OwnLabelPart(l: Entries)
    requires LetterKeys(l)
    ensures LabelPart(l) == l && TwoKinds(l, [])
  {
    assert forall key :: key in l ==> IsLabelKey(key);
  }

  lemma PlainInLedger(l: Entries, ps: seq<Piece>)
    requires LetterKeys(l) && Plain(ps) && EntriesIn(l, ps)
    ensures LabelsIn(l, ps) && OwnEntries(l, ps) && NoneGone(ps)
    ensures Clear([], ps) && DotsClear({}, ps) && Written({}, [])
  {
    hide Out, Tail;
    forall i | 0 <= i < |ps|
      ensures LabelIn(l, ps[i]) && OwnEntry(l, ps[i]) && !ps[i].Gone?
    {
      assert EntryIn(l, ps[i]);
    }
  }

  /** A layer of names below does not bring a suffix up either, after any number of passes. */
  lemma LayerStaysFree(ss: set<string>, l: Entries, ps: seq<Piece>)
    requires AlphaSuffixes(ss) && LetterKeys(l) && Plain(ps) && Flanked(ps) && EntriesIn(l, ps)
    requires NoneBegin(ss, ps) && StaysFree(ss, l, Source(ps))
    ensures StaysFree(ss, l, Out(ps))
  {
    hide AlphaSuffixes, LetterKeys, Plain, Flanked, EntriesIn, NoneBegin, SuffixFree, Out, Source, Unredacted,
      LabelsIn, OwnEntries, NoneGone, Clear, DotsClear, Written, TwoKinds;
    PlainInLedger(l, ps);
    OwnLabelPart(l);
    OncePass(l, [], {}, ps);
    OnceStaysFree(ss, l, ps);
    NextStaysFree(ss, l, Source(ps));
    DotsAreClear(ss, ps);
    OutIsFree(ss, l, ps);
    forall k: nat
      ensures SuffixFree(ss, Passes(l, k, Out(ps)))
    {
      if k > 0 {
        PassThenPasses(l, k - 1, Out(ps));
      }
    }
  }

  /** Text in which no key occurs stays as it is. */
  lemma KeptStaysFree(ss: set<string>, l: Entries, text: string)
    requires NoKeyIn(l, text) && SuffixFree(ss, text)
    ensures StaysFree(ss, l, text)
  {
    hide NoKeyIn, SuffixFree;
    forall k: nat
      ensures SuffixFree(ss, Passes(l, k, text))
    {
      KeptByPasses(l, k, text);
    }
  }

  lemma {:induction false} KeptByPasses(l: Entries, k: nat, text: string)
    requires NoKeyIn(l, text)
    ensures Passes(l, k, text) == text
    decreases k
  {
    hide NoKeyIn;
    if k > 0 {
      NothingToRestore(l, text);
      KeptByPasses(l, k - 1, text);
    }
  }
}
