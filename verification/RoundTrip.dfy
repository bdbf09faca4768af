/** One layer of redaction is undone by one unredaction pass, whatever the layers below it look like. */
module RoundTrip {
  import opened Text
  import opened Table
  import opened Unredaction
  import opened Pieces

  /** A character that stays, and that no key can contain. */
  predicate IsBreak(p: Piece) { p.Lit? && !IsLetter(p.c) }

  predicate FlankedAt(ps: seq<Piece>, i: nat)
    requires i < |ps|
  {
    && (i > 0 ==> IsBreak(ps[i - 1]))
    && (i + 1 < |ps| ==> IsBreak(ps[i + 1]))
  }

  /** Replacements do not touch each other or any letter. */
  predicate Flanked(ps: seq<Piece>)
  {
    forall i :: 0 <= i < |ps| && Asks(ps[i]) ==> FlankedAt(ps, i)
  }

  /** Index of the first break, or the length if there is none. */
  function FirstBreak(ps: seq<Piece>): (j: nat)
    ensures j <= |ps| && (j < |ps| ==> IsBreak(ps[j]))
    ensures forall i :: 0 <= i < j ==> !IsBreak(ps[i])
  {
    if ps == [] || IsBreak(ps[0]) then 0 else 1 + FirstBreak(ps[1..])
  }

  predicate AllLits(ps: seq<Piece>)
  {
    forall i :: 0 <= i < |ps| ==> ps[i].Lit?
  }

  predicate NoneGone(ps: seq<Piece>)
  {
    forall i :: 0 <= i < |ps| ==> !ps[i].Gone?
  }

  /** Before the first break there is a single replacement, or none. */
  lemma BlockShape(ps: seq<Piece>)
    requires NoneGone(ps) && Flanked(ps)
    ensures var block := ps[..FirstBreak(ps)];
            AllLits(block) || (|block| == 1 && Asks(block[0]))
    ensures var j := FirstBreak(ps);
            Flanked(ps[..j]) && (j < |ps| ==> Flanked(ps[j + 1..]))
  {
    var j := FirstBreak(ps);
    forall i | 0 <= i < j && Asks(ps[i])
      ensures i == 0 && j == 1
    {
      assert FlankedAt(ps, i);
    }
    if j < |ps| {
      var rest := ps[j + 1..];
      forall i | 0 <= i < |rest| && Asks(rest[i])
        ensures FlankedAt(rest, i)
      {
        assert FlankedAt(ps, j + 1 + i);
      }
    }
  }

  lemma {:induction false} LitsAreTheSame(ps: seq<Piece>)
    requires AllLits(ps)
    ensures Source(ps) == Out(ps) && |Out(ps)| == |ps|
    ensures forall i :: 0 <= i < |ps| ==> ps[i] == Lit(Out(ps)[i])
  {
    if ps != [] {
      LitsAreTheSame(ps[1..]);
      assert forall i :: 1 <= i < |ps| ==> ps[i] == ps[1..][i - 1];
    }
  }

  /** Both texts, cut at a break. */
  lemma CutAt(ps: seq<Piece>, j: nat)
    requires j < |ps| && IsBreak(ps[j])
    ensures Source(ps) == Source(ps[..j]) + [ps[j].c] + Source(ps[j + 1..])
    ensures Out(ps) == Out(ps[..j]) + [ps[j].c] + Out(ps[j + 1..])
  {
    hide Source, Out;
    assert ps == ps[..j] + ps[j..];
    TextsConcat(ps[..j], ps[j..]);
    LitFirst(ps[j..]);
    assert ps[j..][1..] == ps[j + 1..];
    Associates(Source(ps[..j]), [ps[j].c], Source(ps[j + 1..]));
    Associates(Out(ps[..j]), [ps[j].c], Out(ps[j + 1..]));
  }

  lemma LitFirst(ps: seq<Piece>)
    requires ps != [] && ps[0].Lit?
    ensures Source(ps) == [ps[0].c] + Source(ps[1..])
    ensures Out(ps) == [ps[0].c] + Out(ps[1..])
  {
  }

  lemma Associates(a: string, b: string, c: string)
    ensures a + (b + c) == a + b + c
  {
  }

  lemma HitIsRestored(m: Entries, n: nat, ps: seq<Piece>)
    requires LetterKeys(m) && |ps| == 1 && ps[0].Hit? && EntryIn(m, ps[0])
    ensures Passes(m, n + 1, Out(ps)) == Passes(m, n, Source(ps))
  {
    var p := ps[0];
    assert Out(ps) == p.rep + Out([]) && Source(ps) == p.orig + Source([]);
    assert p.rep + "" == p.rep && p.orig + "" == p.orig;
    RestoresKey(m, p.rep);
  }

  lemma NoKeyInParts(m: Entries, x: string, c: char, y: string)
    requires NoKeyIn(m, x + [c] + y)
    ensures NoKeyIn(m, x) && NoKeyIn(m, y)
  {
    assert "" + x + ([c] + y) == x + [c] + y && (x + [c]) + y + "" == x + [c] + y;
    NoKeyInPart(m, "", x, [c] + y);
    NoKeyInPart(m, x + [c], y, "");
  }

  /**
   A layer of replacements is peeled off by the first pass: n + 1 passes over the text after it give
   what n passes give over the text before it, provided those leave no key behind.
   */
  lemma {:induction false} PeelsOff(m: Entries, n: nat, ps: seq<Piece>)
    requires LetterKeys(m) && Plain(ps) && Flanked(ps) && EntriesIn(m, ps)
    requires NoKeyIn(m, Passes(m, n, Source(ps)))
    ensures Passes(m, n + 1, Out(ps)) == Passes(m, n, Source(ps))
    decreases |ps|
  {
    hide Passes, LetterKeys, Flanked, NoKeyIn;
    BlockShape(ps);
    var j := FirstBreak(ps);
    if j == |ps| {
      assert ps[..j] == ps;
      if AllLits(ps) {
        LitsAreTheSame(ps);
        LastPass(m, n, Out(ps));
        NothingToRestore(m, Passes(m, n, Out(ps)));
      } else {
        HitIsRestored(m, n, ps);
      }
    } else {
      var a, c, b := ps[..j], ps[j].c, ps[j + 1..];
      CutAt(ps, j);
      PassesApart(m, n, Source(a), c, Source(b));
      PassesApart(m, n + 1, Out(a), c, Out(b));
      NoKeyInParts(m, Passes(m, n, Source(a)), c, Passes(m, n, Source(b)));
      PeelsOff(m, n, a);
      PeelsOff(m, n, b);
    }
  }

  /** No key stands in a stretch of characters that were left alone. */
  ghost predicate Quiet(m: Entries, ps: seq<Piece>)
  {
    forall i, j :: 0 <= i < j <= |ps| && AllLits(ps[i..j]) ==> Out(ps[i..j]) !in m
  }

  /** No entry makes a text longer, and none stands for itself. */
  ghost predicate Shrinking(m: Entries)
  {
    forall key :: key in m ==> |m[key]| <= |key| && m[key] != key
  }

  lemma {:induction false} NeverLonger(m: Entries, text: string)
    requires Shrinking(m)
    ensures |Unredacted(m, text)| <= |text|
  {
    if text != "" {
      UnredactedHead(m, text);
      NeverLonger(m, text[Head(m, text)..]);
    }
  }

  lemma EqualParts(a: string, b: string, x: string, y: string)
    requires a + b == x + y && |a| <= |x| && |b| <= |y|
    ensures a == x && b == y
  {
    assert |a| == |x| by {
      assert |a + b| == |x + y|;
    }
    assert a == (a + b)[..|a|] && x == (x + y)[..|x|];
    assert b == (a + b)[|a|..] && y == (x + y)[|x|..];
  }

  /** Text survives a pass exactly when no key occurs in it. */
  lemma {:induction false} SurvivesIffNoKey(m: Entries, text: string)
    requires LetterKeys(m) && Shrinking(m)
    ensures Unredacted(m, text) == text <==> NoKeyIn(m, text)
  {
    if text == "" {
      EmptyText(m);
      NothingHasNoKey(m);
    } else if Unredacted(m, text) == text {
      var k, head := Head(m, text), HeadRestored(m, text);
      UnredactedHead(m, text);
      NeverLonger(m, text[k..]);
      assert text[..k] + text[k..] == text;
      EqualParts(head, Unredacted(m, text[k..]), text[..k], text[k..]);
      SurvivesIffNoKey(m, text[k..]);
      assert LongestKey(m, text, |text|) == 0;
      NoKeyFurtherBack(m, text);
    } else if NoKeyIn(m, text) {
      NothingToRestore(m, text);
    }
  }

  lemma NothingHasNoKey(m: Entries)
    ensures NoKeyIn(m, "")
  {
  }

  lemma NoKeyFurtherBack(m: Entries, text: string)
    requires text != "" && LongestKey(m, text, |text|) == 0 && NoKeyIn(m, text[1..])
    ensures NoKeyIn(m, text)
  {
    forall key | key in m && key != ""
      ensures !Contains(text, key)
    {
      forall i | 0 <= i <= |text|
        ensures !OccursAt(text, key, i)
      {
        if i == 0 && |key| <= |text| {
          assert text[..|key|] !in m;
        } else if i > 0 && OccursAt(text, key, i) {
          assert text[1..][i - 1..i - 1 + |key|] == key;
          assert OccursAt(text[1..], key, i - 1);
          assert Contains(text[1..], key);
        }
      }
    }
  }

  /** In a stretch of characters left alone, the two notions of no key agree. */
  lemma QuietLits(m: Entries, ps: seq<Piece>)
    requires LetterKeys(m) && AllLits(ps)
    ensures Quiet(m, ps) <==> NoKeyIn(m, Out(ps))
  {
    LitsAreTheSame(ps);
    var text := Out(ps);
    forall i, j | 0 <= i < j <= |ps|
      ensures AllLits(ps[i..j]) && Out(ps[i..j]) == text[i..j]
    {
      SliceOfLits(ps, i, j);
    }
    if Quiet(m, ps) {
      forall key | key in m && key != ""
        ensures !Contains(text, key)
      {
        forall i | 0 <= i <= |text|
          ensures !OccursAt(text, key, i)
        {
          if i + |key| <= |text| {
            assert AllLits(ps[i..i + |key|]);
          }
        }
      }
    }
    if NoKeyIn(m, text) {
      forall i, j | 0 <= i < j <= |ps|
        ensures Out(ps[i..j]) !in m
      {
        assert OccursAt(text, text[i..j], i);
        assert Contains(text, text[i..j]);
      }
    }
  }

  lemma SliceOfLits(ps: seq<Piece>, i: nat, j: nat)
    requires AllLits(ps) && i <= j <= |ps|
    ensures |Out(ps)| == |ps| && AllLits(ps[i..j]) && Out(ps[i..j]) == Out(ps)[i..j]
  {
    LitsAreTheSame(ps);
    LitsAreTheSame(ps[i..j]);
    forall k | 0 <= k < j - i
      ensures Out(ps[i..j])[k] == Out(ps)[i + k]
    {
      assert Lit(Out(ps[i..j])[k]) == ps[i..j][k] == ps[i + k] == Lit(Out(ps)[i + k]);
    }
  }

  lemma PartOfPart(ps: seq<Piece>, n: nat, e: nat, i: nat, k: nat)
    requires n <= e <= |ps| && i <= k <= e - n
    ensures ps[n..e][i..k] == ps[n + i..n + k]
  {
    var a, b := ps[n..e][i..k], ps[n + i..n + k];
    assert forall x :: 0 <= x < k - i ==> a[x] == b[x];
  }

  /** A stretch without replacements that contains a character reads that character there. */
  lemma LitsRead(ps: seq<Piece>, i: nat, k: nat, j: nat)
    requires i <= j < k <= |ps| && AllLits(ps[i..k])
    ensures ps[j].Lit? && ps[j].c in Out(ps[i..k])
  {
    hide Out, AllLits;
    LitsAreTheSame(ps[i..k]);
    assert ps[i..k][j - i] == ps[j];
    assert Out(ps[i..k])[j - i] == ps[j].c;
  }

  lemma QuietIn(m: Entries, ps: seq<Piece>, n: nat, e: nat)
    requires Quiet(m, ps) && n <= e <= |ps|
    ensures Quiet(m, ps[n..e])
  {
    hide Out, AllLits;
    forall i, k | 0 <= i < k <= e - n && AllLits(ps[n..e][i..k])
      ensures Out(ps[n..e][i..k]) !in m
    {
      PartOfPart(ps, n, e, i, k);
    }
  }

  lemma NoKeyAcross(m: Entries, key: string, c: char)
    requires LetterKeys(m) && !IsLetter(c) && c in key
    ensures key !in m
  {
    var i :| 0 <= i < |key| && key[i] == c;
    assert !IsLetters(key);
  }

  lemma QuietApart(m: Entries, ps: seq<Piece>, j: nat)
    requires LetterKeys(m) && j < |ps| && IsBreak(ps[j])
    ensures Quiet(m, ps) <==> Quiet(m, ps[..j]) && Quiet(m, ps[j + 1..])
  {
    hide Out, AllLits, LetterKeys;
    var n := |ps|;
    assert ps[0..j] == ps[..j] && ps[j + 1..n] == ps[j + 1..];
    if Quiet(m, ps) {
      QuietIn(m, ps, 0, j);
      QuietIn(m, ps, j + 1, n);
    }
    if Quiet(m, ps[0..j]) && Quiet(m, ps[j + 1..n]) {
      forall i, k | 0 <= i < k <= n && AllLits(ps[i..k])
        ensures Out(ps[i..k]) !in m
      {
        if k <= j {
          PartOfPart(ps, 0, j, i, k);
        } else if i > j {
          PartOfPart(ps, j + 1, n, i - j - 1, k - j - 1);
        } else {
          LitsRead(ps, i, k, j);
          NoKeyAcross(m, Out(ps[i..k]), ps[j].c);
        }
      }
    }
  }

  /**
   One layer, one pass: the text comes back exactly when no key of the table stands in a stretch that
   was left alone.
   */
  lemma {:induction false} RestoredIffQuiet(m: Entries, ps: seq<Piece>)
    requires LetterKeys(m) && Shrinking(m) && Plain(ps) && Flanked(ps) && EntriesIn(m, ps)
    ensures Unredacted(m, Out(ps)) == Source(ps) <==> Quiet(m, ps)
    ensures |Unredacted(m, Out(ps))| <= |Source(ps)|
    decreases |ps|
  {
    hide LetterKeys, Shrinking, Flanked, Quiet, Unredacted;
    BlockShape(ps);
    var j := FirstBreak(ps);
    if j == |ps| {
      assert ps[..j] == ps;
      if AllLits(ps) {
        LitsAreTheSame(ps);
        SurvivesIffNoKey(m, Out(ps));
        QuietLits(m, ps);
        NeverLonger(m, Out(ps));
      } else {
        HitIsRestored(m, 0, ps);
        OnePass(m, Out(ps));
        HitIsQuiet(m, ps);
      }
    } else {
      var a, c, b := ps[..j], ps[j].c, ps[j + 1..];
      CutAt(ps, j);
      RestoresApart(m, Out(a), c, Out(b));
      QuietApart(m, ps, j);
      RestoredIffQuiet(m, a);
      RestoredIffQuiet(m, b);
      if Unredacted(m, Out(ps)) == Source(ps) {
        EqualParts(Unredacted(m, Out(a)) + [c], Unredacted(m, Out(b)), Source(a) + [c], Source(b));
        EqualParts(Unredacted(m, Out(a)), [c], Source(a), [c]);
      }
    }
  }

  lemma OnePass(m: Entries, text: string)
    ensures Passes(m, 1, text) == Unredacted(m, text) && Passes(m, 0, text) == text
  {
  }

  lemma HitIsQuiet(m: Entries, ps: seq<Piece>)
    requires |ps| == 1 && ps[0].Hit?
    ensures Quiet(m, ps)
  {
  }
}
