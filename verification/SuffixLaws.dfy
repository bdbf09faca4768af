/**
 filter/email/email.go with replacements for top-level domains, any number of them: the last label and
 its top-level domain are restored together, from an entry of their own.
 */
module SuffixLaws {
  import opened Text
  import opened Table
  import opened Unredaction
  import opened Pieces
  import opened RoundTrip
  import opened EmailScan
  import opened EmailLaws

  predicate IsLabelKey(key: string) { key != "" && IsLetters(key) }

  /** Every top-level domain replaced is alphabetic. */
  predicate AlphaDomains(ps: seq<Piece>)
  {
    forall i :: 0 <= i < |ps| && ps[i].Combo? ==> IsLetters(ps[i].tld)
  }

  /** What was written behind the replacement of a label. */
  function Tail(p: Piece): string
    requires Asks(p)
  {
    if p.Combo? then "." + p.suffix else ""
  }

  /** This replacement of a label with its top-level domain is what the entry of the key stands for. */
  predicate Wrote(m: Entries, p: Piece, key: string)
    requires key in m
  {
    p.Combo? && OutOf(p) == key && m[key] == SourceOf(p)
  }

  /** A key stands for a label, or for a label with its top-level domain. */
  ghost predicate KeyKnown(m: Entries, ps: seq<Piece>, key: string)
    requires key in m
  {
    IsLabelKey(key) || exists i :: 0 <= i < |ps| && Wrote(m, ps[i], key)
  }

  ghost predicate KeysKnown(m: Entries, ps: seq<Piece>)
  {
    forall key :: key in m ==> KeyKnown(m, ps, key)
  }

  /** The label of a replacement has an entry, and so has what was written. */
  predicate LabelIn(m: Entries, p: Piece)
  {
    Asks(p) ==> p.rep in m && IsLabelKey(p.rep) && m[p.rep] == Asked(p) && OutOf(p) in m
  }

  predicate LabelsIn(m: Entries, ps: seq<Piece>)
  {
    forall i :: 0 <= i < |ps| ==> LabelIn(m, ps[i])
  }

  /** What holds between the replacements made so far and the table. */
  ghost predicate Ledger(m: Entries, ps: seq<Piece>)
  {
    Stable(m) && OneKeyEach(m) && KeysKnown(m, ps) && LabelsIn(m, ps)
  }

  lemma DotAfterLabel(a: string, s: string, b: string, t: string)
    requires IsLetters(a) && IsLetters(b) && a + "." + s == b + "." + t
    ensures a == b && s == t
  {
    var x, y := a + "." + s, b + "." + t;
    assert x[|a|] == '.' && y[|b|] == '.';
    assert |a| == |b|;
    assert a == x[..|a|] && b == y[..|b|];
    assert s == x[|a| + 1..] && t == y[|b| + 1..];
  }

  lemma LettersAreDotFree(key: string)
    requires IsLetters(key)
    ensures DotFree(key)
  {
  }

  /** The replacement returned is a label key, whatever combined entries there are. */
  lemma ReturnsLabelKey(m: Entries, ps: seq<Piece>, original: string, fullInput: string, rep: string)
    requires Stable(m) && KeysKnown(m, ps)
    requires MayReturn(m, original, fullInput, rep) && Separated(m, original, rep)
    ensures IsLabelKey(rep) && (rep in m ==> m[rep] == original)
  {
    hide Stable, Separated;
    StepIsCasedLike(m, original, fullInput, rep);
    KeepsStable(m, original, fullInput, rep);
    ReturnsDotFree(m, original, fullInput, rep);
    if Known(m, original) {
      DotFreeIsLabelKey(m, ps, rep);
    } else if KnownUpToCase(m, original) {
      var key :| key in m && StandsUpToCase(m, key, original) && rep == Casing.MatchCased(original, key);
      DotFreeIsLabelKey(m, ps, key);
    } else {
      DrawnIsWord(m, original, fullInput, rep);
    }
  }

  lemma DotFreeIsLabelKey(m: Entries, ps: seq<Piece>, key: string)
    requires KeysKnown(m, ps) && key in m && DotFree(key)
    ensures IsLabelKey(key)
  {
  }

  /** The entry for a label. */
  lemma LabelStep(m: Entries, ps: seq<Piece>, p: Piece, fullInput: string)
    requires Ledger(m, ps) && Asks(p)
    requires MayReturn(m, Asked(p), fullInput, p.rep) && Separated(m, Asked(p), p.rep)
    ensures var m1 := m[p.rep := Asked(p)]; Ledger(m1, ps) && IsLabelKey(p.rep)
  {
    hide MayReturn, Separated, Stable, OneKeyEach;
    var m1 := m[p.rep := Asked(p)];
    ReturnsLabelKey(m, ps, Asked(p), fullInput, p.rep);
    KeepsStable(m, Asked(p), fullInput, p.rep);
    KeepsOneKeyEach(m, Asked(p), fullInput, p.rep);
    forall key | key in m1
      ensures KeyKnown(m1, ps, key)
    {
      if key in m {
        assert KeyKnown(m, ps, key);
        if !IsLabelKey(key) {
          var i :| 0 <= i < |ps| && Wrote(m, ps[i], key);
          assert Wrote(m1, ps[i], key);
        }
      }
    }
    forall i | 0 <= i < |ps|
      ensures LabelIn(m1, ps[i])
    {
      assert LabelIn(m, ps[i]);
    }
  }

  lemma StableButForDots(m: Entries, key: string, original: string)
    requires Stable(m) && OneKeyEach(m) && !DotFree(key)
    ensures Stable(m[key := original]) && OneKeyEach(m[key := original])
  {
    var m1 := m[key := original];
    forall k1, k2 | k1 in m1 && k2 in m1 && DotFree(k1) && DotFree(k2)
      ensures SameName(m1, k1, k2)
    {
      assert SameName(m, k1, k2);
    }
    forall k | k in m1 && DotFree(k)
      ensures StableKey(m1, k)
    {
      assert StableKey(m, k);
    }
  }

  lemma ComboHasDot(p: Piece)
    requires p.Combo?
    ensures !DotFree(OutOf(p)) && !IsLabelKey(OutOf(p))
  {
  }

  lemma KeyKnownFurther(m: Entries, ps: seq<Piece>, p: Piece, key: string)
    requires p.Combo? && key in m && key != OutOf(p) && KeyKnown(m, ps, key)
    ensures KeyKnown(m[OutOf(p) := SourceOf(p)], ps + [p], key)
  {
    var m1, more := m[OutOf(p) := SourceOf(p)], ps + [p];
    if !IsLabelKey(key) {
      var i :| 0 <= i < |ps| && Wrote(m, ps[i], key);
      assert more[i] == ps[i] && Wrote(m1, ps[i], key);
    }
  }

  lemma LabelInFurther(m: Entries, q: Piece, key: string, original: string)
    requires LabelIn(m, q) && !IsLabelKey(key)
    ensures LabelIn(m[key := original], q)
  {
  }

  /** The entry for a label with its top-level domain leaves all labels alone. */
  lemma ComboStep(m: Entries, ps: seq<Piece>, p: Piece)
    requires Ledger(m, ps) && p.Combo? && p.rep in m && IsLabelKey(p.rep) && m[p.rep] == p.part
    ensures Ledger(m[OutOf(p) := SourceOf(p)], ps + [p])
  {
    hide OutOf, SourceOf, Stable, OneKeyEach, IsLabelKey, LabelIn, KeyKnown;
    var m1, more := m[OutOf(p) := SourceOf(p)], ps + [p];
    ComboHasDot(p);
    StableButForDots(m, OutOf(p), SourceOf(p));
    assert more[|ps|] == p;
    forall key | key in m1
      ensures KeyKnown(m1, more, key)
    {
      if key == OutOf(p) {
        JustWrote(m1, more, key);
      } else {
        KeyKnownFurther(m, ps, p, key);
      }
    }
    forall i | 0 <= i < |more|
      ensures LabelIn(m1, more[i])
    {
      if i < |ps| {
        LabelInFurther(m, ps[i], OutOf(p), SourceOf(p));
      } else {
        LabelNowIn(m, p);
      }
    }
  }

  lemma JustWrote(m: Entries, ps: seq<Piece>, key: string)
    requires key in m && ps != [] && Wrote(m, ps[|ps| - 1], key)
    ensures KeyKnown(m, ps, key)
  {
  }

  lemma LabelNowIn(m: Entries, p: Piece)
    requires p.Combo? && p.rep in m && IsLabelKey(p.rep) && m[p.rep] == p.part
    ensures LabelIn(m[OutOf(p) := SourceOf(p)], p)
  {
  }

  lemma Untouched(m: Entries, ps: seq<Piece>, p: Piece)
    requires Ledger(m, ps) && !p.Combo? && LabelIn(m, p)
    ensures Ledger(m, ps + [p])
  {
    hide Stable, OneKeyEach;
    var more := ps + [p];
    forall key | key in m
      ensures KeyKnown(m, more, key)
    {
      assert KeyKnown(m, ps, key);
      if !IsLabelKey(key) {
        var i :| 0 <= i < |ps| && Wrote(m, ps[i], key);
        assert more[i] == ps[i];
      }
    }
    forall i | 0 <= i < |more|
      ensures LabelIn(m, more[i])
    {
      assert i < |ps| ==> LabelIn(m, ps[i]);
    }
  }

  lemma LedgerStep(m: Entries, done: seq<Piece>, p: Piece, fullInput: string)
    requires Ledger(m, done)
    requires Asks(p) ==> MayReturn(m, Asked(p), fullInput, p.rep) && Separated(m, Asked(p), p.rep)
    ensures Ledger(Put(m, p), done + [p])
  {
    hide Ledger, MayReturn, Separated, IsLabelKey;
    if Asks(p) {
      LabelStep(m, done, p, fullInput);
    }
    if p.Combo? {
      ComboStep(m[p.rep := p.part], done, p);
      assert OutOf(p) == p.rep + "." + p.suffix && SourceOf(p) == p.part + "." + p.tld;
    } else {
      Untouched(Put(m, p), done, p);
    }
  }

  /** Over a whole run, the table knows what was replaced, and nothing else but labels. */
  lemma {:induction false} LedgerKept(m: Entries, done: seq<Piece>, ps: seq<Piece>, fullInput: string)
    requires Ledger(m, done) && Calls(m, ps, fullInput) && SeparatedCalls(m, ps)
    ensures Ledger(After(m, ps), done + ps)
    decreases |ps|
  {
    hide Ledger, MayReturn, Separated;
    if ps == [] {
      assert done + ps == done;
    } else {
      LedgerStep(m, done, ps[0], fullInput);
      LedgerKept(Put(m, ps[0]), done + [ps[0]], ps[1..], fullInput);
      assert done + [ps[0]] + ps[1..] == done + ps;
    }
  }

  /**
   No other suffix that was ever written behind the same replacement could be read in place of what stands
   behind it in this output, by being longer.
   */
  predicate ClearAt(all: seq<Piece>, ps: seq<Piece>, i: nat)
    requires i < |ps| && Asks(ps[i])
  {
    forall j :: 0 <= j < |all| && all[j].Combo? && all[j].rep == ps[i].rep ==>
      "." + all[j].suffix <= Tail(ps[i]) + Out(ps[i + 1..]) ==> 1 + |all[j].suffix| <= |Tail(ps[i])|
  }

  predicate Clear(all: seq<Piece>, ps: seq<Piece>)
  {
    forall i :: 0 <= i < |ps| && Asks(ps[i]) ==> ClearAt(all, ps, i)
  }

  /** A label with a suffix behind it that was written. */
  predicate IsJoint(m: Entries, all: seq<Piece>, key: string, j: nat)
    requires j < |all|
  {
    all[j].Combo? && all[j].rep in m && IsLabelKey(all[j].rep) && key == all[j].rep + ("." + all[j].suffix)
  }

  /** What the keys of the table look like. */
  ghost predicate TwoKinds(m: Entries, all: seq<Piece>)
  {
    forall key :: key in m ==> IsLabelKey(key) || exists j :: 0 <= j < |all| && IsJoint(m, all, key, j)
  }

  lemma LedgerHasTwoKinds(m: Entries, all: seq<Piece>)
    requires Ledger(m, all)
    ensures TwoKinds(m, all)
  {
    hide *;
    LedgerKnows(m, all);
    forall key | key in m && !IsLabelKey(key)
      ensures exists j :: 0 <= j < |all| && IsJoint(m, all, key, j)
    {
      var j := WhoWrote(m, all, key);
    }
    EveryKeyIsOne(m, all);
  }

  lemma LedgerKnows(m: Entries, all: seq<Piece>)
    requires Ledger(m, all)
    ensures forall key :: key in m ==> KeyKnown(m, all, key)
    ensures LabelsIn(m, all)
  {
    hide Stable, OneKeyEach, KeyKnown, LabelsIn;
  }

  lemma EveryKeyIsOne(m: Entries, all: seq<Piece>)
    requires forall key :: key in m && !IsLabelKey(key) ==> exists j :: 0 <= j < |all| && IsJoint(m, all, key, j)
    ensures TwoKinds(m, all)
  {
  }

  lemma WhoWrote(m: Entries, all: seq<Piece>, key: string) returns (j: nat)
    requires key in m && KeyKnown(m, all, key) && !IsLabelKey(key) && LabelsIn(m, all)
    ensures j < |all| && IsJoint(m, all, key, j)
  {
    hide IsLabelKey;
    j :| 0 <= j < |all| && Wrote(m, all[j], key);
    assert LabelIn(m, all[j]);
    assert OutOf(all[j]) == all[j].rep + ("." + all[j].suffix);
  }

  /** A replacement and what was written behind it are the longest key there. */
  lemma WrittenIsTaken(m: Entries, all: seq<Piece>, rep: string, tail: string, rest: string)
    requires TwoKinds(m, all) && IsLabelKey(rep) && rep + tail in m
    requires tail + rest != "" ==> !IsLetter((tail + rest)[0])
    requires forall j :: 0 <= j < |all| && all[j].Combo? && all[j].rep == rep ==>
               "." + all[j].suffix <= tail + rest ==> 1 + |all[j].suffix| <= |tail|
    ensures var text := rep + (tail + rest);
            LongestKey(m, text, |text|) == |rep + tail|
  {
    var whole, more := rep + tail, tail + rest;
    var text := rep + more;
    assert text == whole + rest && text[..|whole|] == whole;
    forall k | |whole| < k <= |text|
      ensures text[..k] !in m
    {
      assert text[..k][|rep|] == more[0];
      forall j | 0 <= j < |all|
        ensures !IsJoint(m, all, text[..k], j)
      {
        if IsJoint(m, all, text[..k], j) {
          DotAfterLabelAt(rep, more, all[j].rep, all[j].suffix, k);
        }
      }
    }
    LongestKeyIs(m, text, |whole|);
  }

  /** A prefix of rep + rest that is a label with the suffix needs the suffix in rest. */
  lemma DotAfterLabelAt(rep: string, rest: string, other: string, s: string, k: nat)
    requires IsLetters(rep) && IsLetters(other) && (rest != "" ==> !IsLetter(rest[0]))
    requires k <= |rep + rest| && (rep + rest)[..k] == other + ("." + s) && |rep| < k
    ensures other == rep && "." + s <= rest
  {
    var text, key := rep + rest, other + ("." + s);
    assert key[|other|] == '.' == text[|other|];
    assert text[|rep|] == rest[0] == key[|rep|];
    assert |other| == |rep|;
    assert key[|rep|..] == "." + s && text[..k][|rep|..] == rest[..k - |rep|];
    assert other == key[..|rep|] && rep == text[..k][..|rep|];
  }

  /** Letters at the front of an output that begins with a character left alone were all left alone. */
  lemma {:induction false} LettersLeftAlone(ps: seq<Piece>, k: nat)
    requires Flanked(ps) && NoneGone(ps) && ps != [] && ps[0].Lit?
    requires k <= |Out(ps)| && IsLetters(Out(ps)[..k])
    ensures Out(ps)[..k] <= Source(ps)
  {
    if k > 0 {
      LitFirst(ps);
      assert Out(ps)[..k][0] == ps[0].c;
      assert Out(ps)[..k] == [ps[0].c] + Out(ps[1..])[..k - 1];
      if k > 1 {
        LettersBehind(ps[0].c, Out(ps[1..])[..k - 1]);
        NoTexts();
        LitBesideLetter(ps);
        FlankedRest(ps);
        LettersLeftAlone(ps[1..], k - 1);
      }
    }
  }

  lemma LettersBehind(c: char, text: string)
    requires IsLetters([c] + text)
    ensures IsLetter(c) && IsLetters(text)
  {
    assert ([c] + text)[0] == c;
    forall i | 0 <= i < |text|
      ensures IsLetter(text[i])
    {
      assert ([c] + text)[i + 1] == text[i];
    }
  }

  lemma LitBesideLetter(ps: seq<Piece>)
    requires Flanked(ps) && NoneGone(ps) && |ps| > 1 && ps[0].Lit? && IsLetter(ps[0].c)
    ensures ps[1].Lit?
  {
  }

  lemma FlankedRest(ps: seq<Piece>)
    requires Flanked(ps) && ps != []
    ensures Flanked(ps[1..])
  {
  }

  /** At a character that was left alone no key is found. */
  lemma LitIsKept(m: Entries, all: seq<Piece>, ps: seq<Piece>)
    requires TwoKinds(m, all) && Flanked(ps) && NoneGone(ps) && ps != [] && ps[0].Lit?
    requires NoKeyIn(m, Source(ps))
    ensures LongestKey(m, Out(ps), |Out(ps)|) == 0
  {
    hide Flanked, NoneGone, Out, Source, NoKeyIn;
    var text := Out(ps);
    forall k | 0 < k <= |text|
      ensures text[..k] !in m
    {
      if text[..k] in m {
        var rep := text[..k];
        if !IsLabelKey(rep) {
          var j :| 0 <= j < |all| && IsJoint(m, all, text[..k], j);
          rep := all[j].rep;
        }
        assert text[..|rep|] == rep == text[..k][..|rep|];
        LettersLeftAlone(ps, |rep|);
        FrontIsNoKey(m, Source(ps), rep);
        assert false;
      }
    }
    LongestKeyIs(m, text, 0);
  }

  lemma FrontIsNoKey(m: Entries, text: string, key: string)
    requires NoKeyIn(m, text) && key in m && key != ""
    ensures !(key <= text)
  {
    if key <= text {
      assert OccursAt(text, key, 0);
      assert Contains(text, key);
    }
  }

  /** What the table holds for the pieces of an output. */
  function Restored(m: Entries, ps: seq<Piece>): string
    requires LabelsIn(m, ps)
  {
    if ps == [] then ""
    else
      assert LabelIn(m, ps[0]);
      LabelsInRest(m, ps);
      (if Asks(ps[0]) then m[OutOf(ps[0])] else OutOf(ps[0])) + Restored(m, ps[1..])
  }

  lemma LabelsInRest(m: Entries, ps: seq<Piece>)
    requires LabelsIn(m, ps) && ps != []
    ensures LabelsIn(m, ps[1..])
  {
  }

  lemma RestoredHead(m: Entries, ps: seq<Piece>)
    requires LabelsIn(m, ps) && ps != []
    ensures LabelsIn(m, ps[1..]) && (Asks(ps[0]) ==> LabelIn(m, ps[0]))
    ensures Restored(m, ps) == (if Asks(ps[0]) then m[OutOf(ps[0])] else OutOf(ps[0])) + Restored(m, ps[1..])
  {
  }

  lemma TakesHead(m: Entries, text: string, n: nat, rest: string)
    requires text != "" && n <= |text| && LongestKey(m, text, |text|) == n
    requires rest == text[if n > 0 then n else 1..]
    ensures Unredacted(m, text) == (if n > 0 then m[text[..n]] else [text[0]]) + Unredacted(m, rest)
  {
  }

  /** What a pass makes of the first piece. */
  lemma HeadIsRestored(m: Entries, all: seq<Piece>, ps: seq<Piece>)
    requires TwoKinds(m, all) && LabelsIn(m, ps)
    requires Flanked(ps) && NoneGone(ps) && ps != [] && Clear(all, ps) && NoKeyIn(m, Source(ps))
    ensures var rest := Out(ps[1..]);
            Unredacted(m, Out(ps)) == (if Asks(ps[0]) then m[OutOf(ps[0])] else OutOf(ps[0])) + Unredacted(m, rest)
  {
    hide TwoKinds, LabelsIn, Flanked, NoneGone, Clear, NoKeyIn, IsLabelKey, Out, Source, Unredacted, OutOf, Tail;
    var p, rest, text := ps[0], Out(ps[1..]), Out(ps);
    FirstText(ps);
    FirstNotGone(ps);
    if p.Lit? {
      LitIsKept(m, all, ps);
      LitText(p);
      assert text == [p.c] + rest && text[1..] == rest;
      TakesHead(m, text, 0, rest);
    } else {
      FirstLabelIn(m, ps);
      FirstIsApart(all, ps);
      WrittenText(p);
      WrittenIsTaken(m, all, p.rep, Tail(p), rest);
      var whole := OutOf(p);
      Associates(p.rep, Tail(p), rest);
      assert text[..|whole|] == whole && text[|whole|..] == rest;
      TakesHead(m, text, |whole|, rest);
    }
  }

  lemma LitText(p: Piece)
    requires p.Lit?
    ensures OutOf(p) == [p.c]
  {
  }

  lemma WrittenText(p: Piece)
    requires Asks(p)
    ensures OutOf(p) == p.rep + Tail(p)
  {
    assert p.Combo? ==> OutOf(p) == p.rep + ("." + p.suffix);
  }

  lemma FirstNotGone(ps: seq<Piece>)
    requires NoneGone(ps) && ps != []
    ensures !ps[0].Gone?
  {
  }

  lemma FirstLabelIn(m: Entries, ps: seq<Piece>)
    requires LabelsIn(m, ps) && ps != [] && Asks(ps[0])
    ensures ps[0].rep in m && IsLabelKey(ps[0].rep) && OutOf(ps[0]) in m && ps[0].rep != ""
  {
  }

  /** What follows the first replacement is no letter, and no longer suffix. */
  lemma FirstIsApart(all: seq<Piece>, ps: seq<Piece>)
    requires Flanked(ps) && Clear(all, ps) && ps != [] && Asks(ps[0])
    ensures var tail, rest := Tail(ps[0]), Out(ps[1..]);
            && (tail + rest != "" ==> !IsLetter((tail + rest)[0]))
            && (forall j :: 0 <= j < |all| && all[j].Combo? && all[j].rep == ps[0].rep ==>
                  "." + all[j].suffix <= tail + rest ==> 1 + |all[j].suffix| <= |tail|)
  {
    hide Out;
    assert ClearAt(all, ps, 0) && FlankedAt(ps, 0);
    if ps[0].Hit? {
      assert "" + Out(ps[1..]) == Out(ps[1..]);
      if |ps| > 1 {
        LitFirst(ps[1..]);
      } else {
        assert ps[1..] == [];
        NoTexts();
      }
    }
  }

  lemma RestOfOutput(all: seq<Piece>, ps: seq<Piece>)
    requires ps != [] && NoneGone(ps) && Clear(all, ps)
    ensures NoneGone(ps[1..]) && Clear(all, ps[1..])
  {
    hide Out, Tail;
    forall i | 0 <= i < |ps[1..]| && Asks(ps[1..][i])
      ensures ClearAt(all, ps[1..], i)
    {
      assert ClearAt(all, ps, i + 1);
      assert ps[1..][i + 1..] == ps[i + 1 + 1..];
    }
  }

  lemma NoKeyInRest(m: Entries, ps: seq<Piece>)
    requires ps != [] && NoKeyIn(m, Source(ps))
    ensures NoKeyIn(m, Source(ps[1..]))
  {
    hide NoKeyIn;
    assert SourceOf(ps[0]) + Source(ps[1..]) + "" == Source(ps);
    NoKeyInPart(m, SourceOf(ps[0]), Source(ps[1..]), "");
  }

  /** A pass restores piece by piece what the table holds. */
  lemma {:induction false} PassRestores(m: Entries, all: seq<Piece>, ps: seq<Piece>)
    requires TwoKinds(m, all) && LabelsIn(m, ps)
    requires Flanked(ps) && NoneGone(ps) && Clear(all, ps) && NoKeyIn(m, Source(ps))
    ensures Unredacted(m, Out(ps)) == Restored(m, ps)
  {
    if ps == [] {
      NoTexts();
      EmptyText(m);
    } else {
      hide *;
      HeadIsRestored(m, all, ps);
      RestoredHead(m, ps);
      FlankedRest(ps);
      RestOfOutput(all, ps);
      NoKeyInRest(m, ps);
      PassRestores(m, all, ps[1..]);
    }
  }

  /** A label with its top-level domain has its own entry. */
  predicate OwnEntry(m: Entries, p: Piece)
  {
    p.Combo? ==> OutOf(p) in m && m[OutOf(p)] == SourceOf(p)
  }

  predicate OwnEntries(m: Entries, ps: seq<Piece>)
  {
    forall i :: 0 <= i < |ps| ==> OwnEntry(m, ps[i])
  }

  /** Every combined entry stands for its label together with letters behind a dot. */
  predicate JointShape(m: Entries, p: Piece)
  {
    p.Combo? ==>
      && IsLetters(p.tld) && OutOf(p) in m
      && |p.part| + 1 <= |m[OutOf(p)]| && m[OutOf(p)][..|p.part| + 1] == p.part + "."
      && IsLetters(m[OutOf(p)][|p.part| + 1..])
  }

  predicate JointShapes(m: Entries, ps: seq<Piece>)
  {
    forall i :: 0 <= i < |ps| ==> JointShape(m, ps[i])
  }

  lemma SameRun(a: string, b: string, x: string, y: string)
    requires IsLetters(a) && IsLetters(b) && a + x == b + y
    requires (x != "" ==> !IsLetter(x[0])) && (y != "" ==> !IsLetter(y[0]))
    ensures a == b && x == y
  {
    var t := a + x;
    assert forall i :: 0 <= i < |a| ==> t[i] == a[i];
    assert forall i :: 0 <= i < |b| ==> t[i] == b[i];
    assert |a| < |t| ==> t[|a|] == x[0];
    assert |b| < |t| ==> t[|b|] == (b + y)[|b|] == y[0];
    assert |a| == |b|;
    assert a == t[..|a|] && x == t[|a|..];
    assert b == t[..|b|] && y == t[|b|..];
  }

  lemma FirstJointShape(m: Entries, ps: seq<Piece>)
    requires JointShapes(m, ps) && ps != []
    ensures JointShape(m, ps[0]) && JointShapes(m, ps[1..])
  {
  }

  lemma FirstOwnEntry(m: Entries, ps: seq<Piece>)
    requires ps != []
    ensures OwnEntries(m, ps) <==> OwnEntry(m, ps[0]) && OwnEntries(m, ps[1..])
  {
  }

  /** Behind a replacement both texts go on with the same character, which is no letter, or end. */
  lemma BehindAsked(m: Entries, ps: seq<Piece>)
    requires LabelsIn(m, ps) && Flanked(ps) && ps != [] && Asks(ps[0])
    ensures LabelsIn(m, ps[1..])
    ensures var r, s := Restored(m, ps[1..]), Source(ps[1..]);
            (r != "" ==> !IsLetter(r[0])) && (s != "" ==> !IsLetter(s[0]))
  {
  }

  lemma SameBehind(a: string, x: string, y: string)
    ensures a + x == a + y <==> x == y
  {
    assert (a + x)[|a|..] == x && (a + y)[|a|..] == y;
  }

  lemma ComboRestored(m: Entries, p: Piece, r: string, s: string)
    requires p.Combo? && JointShape(m, p)
    requires (r != "" ==> !IsLetter(r[0])) && (s != "" ==> !IsLetter(s[0]))
    ensures m[OutOf(p)] + r == SourceOf(p) + s <==> OwnEntry(m, p) && r == s
  {
    hide OutOf, IsLetters;
    var n := |p.part| + 1;
    var front, t := m[OutOf(p)][..n], m[OutOf(p)][n..];
    assert m[OutOf(p)] == front + t && SourceOf(p) == front + p.tld;
    assert m[OutOf(p)] + r == front + (t + r) && SourceOf(p) + s == front + (p.tld + s);
    SameBehind(front, t + r, p.tld + s);
    if t + r == p.tld + s {
      SameRun(t, p.tld, r, s);
    }
    if OwnEntry(m, p) {
      SameBehind(front, t, p.tld);
    }
  }

  /** What the table holds is the text before exactly if every combined entry is the one that was made. */
  lemma {:induction false} RestoredIffOwn(m: Entries, ps: seq<Piece>)
    requires LabelsIn(m, ps) && Flanked(ps) && NoneGone(ps) && JointShapes(m, ps)
    ensures Restored(m, ps) == Source(ps) <==> OwnEntries(m, ps)
  {
    if ps == [] {
      NoTexts();
    } else {
      hide LabelsIn, Flanked, NoneGone, JointShapes, JointShape, OwnEntries, Source, Restored, IsLabelKey;
      RestoredHead(m, ps);
      FirstText(ps);
      FirstJointShape(m, ps);
      FirstOwnEntry(m, ps);
      FirstNotGone(ps);
      FlankedRest(ps);
      RestIsNotGone(ps);
      RestoredIffOwn(m, ps[1..]);
      var r, s := Restored(m, ps[1..]), Source(ps[1..]);
      match ps[0]
      case Lit(c) => SameBehind([c], r, s);
      case Hit(orig, _) => SameBehind(orig, r, s);
      case Combo(_, _, _, _) =>
        BehindAsked(m, ps);
        ComboRestored(m, ps[0], r, s);
    }
  }

  lemma RestIsNotGone(ps: seq<Piece>)
    requires NoneGone(ps) && ps != []
    ensures NoneGone(ps[1..])
  {
  }

  /** Each label, with the suffix written behind it, appears with one top-level domain. */
  predicate OneDomainEach(ps: seq<Piece>)
  {
    forall i, j :: 0 <= i < |ps| && 0 <= j < |ps| && SameWritten(ps[i], ps[j]) ==> ps[i].tld == ps[j].tld
  }

  predicate SameWritten(p: Piece, q: Piece)
  {
    p.Combo? && q.Combo? && p.part == q.part && p.suffix == q.suffix
  }

  /** The combined entry of a label was made for that label and suffix, with one of its top-level domains. */
  lemma WhoseEntry(m: Entries, ps: seq<Piece>, i: nat) returns (j: nat)
    requires Ledger(m, ps) && i < |ps| && ps[i].Combo?
    ensures j < |ps| && SameWritten(ps[i], ps[j])
    ensures OutOf(ps[i]) in m && m[OutOf(ps[i])] == ps[i].part + "." + ps[j].tld
  {
    hide Stable, OneKeyEach;
    var p := ps[i];
    assert LabelIn(m, p);
    ComboHasDot(p);
    assert KeyKnown(m, ps, OutOf(p));
    j :| 0 <= j < |ps| && Wrote(m, ps[j], OutOf(p));
    assert LabelIn(m, ps[j]);
    DotAfterLabel(ps[j].rep, ps[j].suffix, p.rep, p.suffix);
  }

  /** Every combined entry is the one that was made exactly if no label had two top-level domains. */
  lemma OwnIffOneDomain(m: Entries, ps: seq<Piece>)
    requires Ledger(m, ps)
    ensures OwnEntries(m, ps) <==> OneDomainEach(ps)
  {
    hide Ledger, LabelsIn;
    if OneDomainEach(ps) {
      forall i | 0 <= i < |ps|
        ensures OwnEntry(m, ps[i])
      {
        if ps[i].Combo? {
          var j := WhoseEntry(m, ps, i);
        }
      }
    }
    if OwnEntries(m, ps) {
      forall i, j | 0 <= i < |ps| && 0 <= j < |ps| && SameWritten(ps[i], ps[j])
        ensures ps[i].tld == ps[j].tld
      {
        SameWrittenSameKey(m, ps, i, j);
        assert OwnEntry(m, ps[i]) && OwnEntry(m, ps[j]);
        SameBehind(ps[i].part + ".", ps[i].tld, ps[j].tld);
      }
    }
  }

  lemma SameWrittenSameKey(m: Entries, ps: seq<Piece>, i: nat, j: nat)
    requires Ledger(m, ps) && i < |ps| && j < |ps| && SameWritten(ps[i], ps[j])
    ensures OutOf(ps[i]) == OutOf(ps[j])
  {
    assert LabelIn(m, ps[i]) && LabelIn(m, ps[j]);
    LettersAreDotFree(ps[i].rep);
    LettersAreDotFree(ps[j].rep);
  }

  lemma LedgerHasShapes(m: Entries, ps: seq<Piece>)
    requires Ledger(m, ps) && AlphaDomains(ps)
    ensures JointShapes(m, ps)
  {
    hide Ledger;
    forall i | 0 <= i < |ps|
      ensures JointShape(m, ps[i])
    {
      if ps[i].Combo? {
        var j := WhoseEntry(m, ps, i);
        var front := ps[i].part + ".";
        assert m[OutOf(ps[i])] == front + ps[j].tld;
      }
    }
  }

  /** No label is replaced by a word that begins with the suffix. */
  predicate NoneBegins(s: string, ps: seq<Piece>)
  {
    forall i :: 0 <= i < |ps| && Asks(ps[i]) ==> !(s <= ps[i].rep)
  }

  lemma NotInFront(s: string, rep: string, rest: string)
    requires IsAlpha(s) && !(s <= rep) && (rest != "" ==> !IsLetter(rest[0]))
    ensures !(s <= rep + rest)
  {
    var t := rep + rest;
    assert |s| <= |rep| ==> t[..|s|] == rep[..|s|];
    assert |rep| < |t| ==> t[|rep|] == rest[0];
    assert |rep| < |s| ==> IsLetter(s[|rep|]);
  }

  lemma AskedNotInFront(s: string, ps: seq<Piece>, i: nat)
    requires IsAlpha(s) && Flanked(ps) && NoneBegins(s, ps) && i < |ps| && Asks(ps[i])
    ensures !(s <= Out(ps[i..]))
  {
    var p, rest := ps[i], ps[i + 1..];
    assert ps[i..][1..] == rest;
    FirstText(ps[i..]);
    assert FlankedAt(ps, i);
    if p.Hit? {
      if rest != [] {
        LitFirst(rest);
      }
      NotInFront(s, p.rep, Out(rest));
    } else {
      var more := "." + p.suffix + Out(rest);
      assert Out(ps[i..]) == p.rep + more;
      NotInFront(s, p.rep, more);
    }
  }

  /** Behind a label and a dot there is then no suffix. */
  lemma NoneBeginsIsEnough(suffixes: Suffixes, s: string, ps: seq<Piece>)
    requires IsAlpha(s) && "*" in suffixes && Tidy(suffixes, ps) && NoneBegins(s, ps)
    ensures NotFollowed(s, ps)
  {
    hide Out, NoneBegins, IsBreak;
    forall i | 0 <= i < |ps| && ps[i].Hit?
      ensures !("." + s <= Out(ps[i + 1..]))
    {
      assert InPlace(suffixes, ps, i) && FlankedAt(ps, i);
      DotThenSuffix(suffixes, s, ps, i);
    }
  }

  lemma DotThenSuffix(suffixes: Suffixes, s: string, ps: seq<Piece>, i: nat)
    requires IsAlpha(s) && "*" in suffixes && Tidy(suffixes, ps) && NoneBegins(s, ps)
    requires i < |ps| && ps[i].Hit? && DotFollows(ps, i) && FlankedAt(ps, i)
    ensures !("." + s <= Out(ps[i + 1..]))
  {
    hide Out, NoneBegins, Tidy, Flanked;
    NoTexts();
    if i + 1 < |ps| {
      var behind := ps[i + 2..];
      assert ps[i + 1..][1..] == behind;
      LitFirst(ps[i + 1..]);
      var c := ps[i + 1].c;
      SuffixBehindDot(s, c, Out(behind));
      if c == '.' && behind != [] {
        if Asks(behind[0]) {
          TidyIsFlanked(suffixes, ps);
          AskedNotInFront(s, ps, i + 2);
        } else if behind[0].Lit? {
          LitFirst(behind);
          NotInFront(s, "", Out(behind));
          assert "" + Out(behind) == Out(behind);
        } else {
          TidyHasNoGone(suffixes, ps, i + 2);
        }
      }
    }
  }

  lemma TidyIsFlanked(suffixes: Suffixes, ps: seq<Piece>)
    requires Tidy(suffixes, ps)
    ensures Flanked(ps)
  {
  }

  lemma TidyHasNoGone(suffixes: Suffixes, ps: seq<Piece>, i: nat)
    requires Tidy(suffixes, ps) && i < |ps|
    ensures !ps[i].Gone?
  {
    assert InPlace(suffixes, ps, i);
  }

  lemma SuffixBehindDot(s: string, c: char, text: string)
    ensures "." + s <= [c] + text ==> c == '.' && s <= text
  {
    var a, b := "." + s, [c] + text;
    if a <= b {
      assert a[0] == b[0];
      assert a[1..] == s && b[1..] == text;
    }
  }

  lemma TidySuffixes(suffixes: Suffixes, ps: seq<Piece>)
    requires Tidy(suffixes, ps)
    ensures AlphaDomains(ps) && NoneGone(ps) && Flanked(ps)
  {
    forall i | 0 <= i < |ps|
      ensures !ps[i].Gone? && (ps[i].Combo? ==> IsLetters(ps[i].tld))
    {
      assert InPlace(suffixes, ps, i);
    }
  }

  lemma LedgerStarts(m: Entries)
    requires Stable(m) && OneKeyEach(m) && LetterKeys(m)
    ensures Ledger(m, [])
  {
  }

  lemma Within(m: Entries, all: seq<Piece>, ps: seq<Piece>)
    requires forall i :: 0 <= i < |ps| ==> ps[i] in all
    requires LabelsIn(m, all) && JointShapes(m, all)
    ensures LabelsIn(m, ps) && JointShapes(m, ps) && (OwnEntries(m, all) ==> OwnEntries(m, ps))
  {
  }

  /** One text among all that were redacted on a table. */
  lemma PassIffOwn(suffixes: Suffixes, m: Entries, all: seq<Piece>, ps: seq<Piece>, text: string)
    requires Ledger(m, all) && AlphaDomains(all) && forall i :: 0 <= i < |ps| ==> ps[i] in all
    requires EmailScans(suffixes, text, 0, ps) && Spaced(text, 0, false)
    requires Clear(all, ps) && NoKeyIn(m, text)
    ensures Unredacted(m, Out(ps)) == text <==> OwnEntries(m, ps)
    ensures OwnEntries(m, all) ==> OwnEntries(m, ps)
  {
    hide *;
    assert text[0..] == text;
    ScanIsTidy(suffixes, text, 0, false, ps);
    TidyFirst(suffixes, text, 0, ps);
    TidySuffixes(suffixes, ps);
    LedgerHasTwoKinds(m, all);
    LedgerHasLabels(m, all);
    LedgerHasShapes(m, all);
    Within(m, all, ps);
    PassRestores(m, all, ps);
    RestoredIffOwn(m, ps);
  }

  /**
   For every map of suffixes: unredaction restores every label with its own top-level domain if and only
   if no label appears with two of them behind the same suffix. The hypotheses are those of the plain
   filter, and that what stands behind a replacement is not the beginning of a longer suffix.
   */
  lemma SuffixRoundTripIff(suffixes: Suffixes, m: Entries, text: string, fullInput: string, ps: seq<Piece>)
    requires EmailScans(suffixes, text, 0, ps) && Spaced(text, 0, false)
    requires Stable(m) && OneKeyEach(m) && LetterKeys(m)
    requires Calls(m, ps, fullInput) && SeparatedCalls(m, ps) && Clear(ps, ps)
    requires NoKeyIn(After(m, ps), text)
    ensures Unredacted(After(m, ps), Out(ps)) == text <==> OneDomainEach(ps)
  {
    hide *;
    var later := After(m, ps);
    ScanHasSuffixes(suffixes, text, ps);
    LedgerStarts(m);
    LedgerKept(m, [], ps, fullInput);
    assert [] + ps == ps;
    PassIffOwn(suffixes, later, ps, ps, text);
    OwnIffOneDomain(later, ps);
  }

  /**
   The same on a table that was used before and was used since, each time with an input of its own: the
   text is restored if no label had two top-level domains behind one suffix in all that time.
   */
  lemma SuffixRoundTripLater(suffixes: Suffixes, later: Entries, all: seq<Piece>, ps: seq<Piece>, text: string)
    requires Ledger(later, all) && AlphaDomains(all) && OneDomainEach(all)
    requires forall i :: 0 <= i < |ps| ==> ps[i] in all
    requires EmailScans(suffixes, text, 0, ps) && Spaced(text, 0, false)
    requires Clear(all, ps) && NoKeyIn(later, text)
    ensures Unredacted(later, Out(ps)) == text
  {
    hide *;
    PassIffOwn(suffixes, later, all, ps, text);
    OwnIffOneDomain(later, all);
  }

  lemma ScanHasSuffixes(suffixes: Suffixes, text: string, ps: seq<Piece>)
    requires EmailScans(suffixes, text, 0, ps) && Spaced(text, 0, false)
    ensures AlphaDomains(ps) && Tidy(suffixes, ps)
  {
    hide *;
    ScanIsTidy(suffixes, text, 0, false, ps);
    TidyFirst(suffixes, text, 0, ps);
    TidySuffixes(suffixes, ps);
  }

  /** No label that was replaced stands right before a dot and the suffix in the output. */
  predicate NotFollowed(s: string, ps: seq<Piece>)
  {
    forall i :: 0 <= i < |ps| && ps[i].Hit? ==> !("." + s <= Out(ps[i + 1..]))
  }

  /** All suffixes written are the same. */
  predicate OnlySuffix(s: string, ps: seq<Piece>)
  {
    forall i :: 0 <= i < |ps| && ps[i].Combo? ==> ps[i].suffix == s
  }

  lemma OnlyOneIsClear(s: string, ps: seq<Piece>)
    requires OnlySuffix(s, ps) && NotFollowed(s, ps)
    ensures Clear(ps, ps)
  {
    hide Out;
    forall i | 0 <= i < |ps| && Asks(ps[i])
      ensures ClearAt(ps, ps, i)
    {
      assert "" + Out(ps[i + 1..]) == Out(ps[i + 1..]);
    }
  }

  lemma TidyHasOnly(s: string, ps: seq<Piece>)
    requires Tidy(map["*" := s], ps)
    ensures OnlySuffix(s, ps)
  {
    forall i | 0 <= i < |ps| && ps[i].Combo?
      ensures ps[i].suffix == s
    {
      assert InPlace(map["*" := s], ps, i);
    }
  }

  /** One suffix for all top-level domains, whatever it looks like. */
  lemma OneSuffixRoundTripIff(s: string, m: Entries, text: string, fullInput: string, ps: seq<Piece>)
    requires EmailScans(map["*" := s], text, 0, ps) && Spaced(text, 0, false)
    requires Stable(m) && OneKeyEach(m) && LetterKeys(m)
    requires Calls(m, ps, fullInput) && SeparatedCalls(m, ps) && NotFollowed(s, ps)
    requires NoKeyIn(After(m, ps), text)
    ensures Unredacted(After(m, ps), Out(ps)) == text <==> OneDomainEach(ps)
  {
    hide *;
    ScanHasSuffixes(map["*" := s], text, ps);
    TidyHasOnly(s, ps);
    OnlyOneIsClear(s, ps);
    SuffixRoundTripIff(map["*" := s], m, text, fullInput, ps);
  }

  /** For an alphabetic suffix it is enough that no label is replaced by a word that begins with it. */
  lemma AlphaSuffixRoundTripIff(s: string, m: Entries, text: string, fullInput: string, ps: seq<Piece>)
    requires IsAlpha(s) && EmailScans(map["*" := s], text, 0, ps) && Spaced(text, 0, false)
    requires Stable(m) && OneKeyEach(m) && LetterKeys(m)
    requires Calls(m, ps, fullInput) && SeparatedCalls(m, ps) && NoneBegins(s, ps)
    requires NoKeyIn(After(m, ps), text)
    ensures Unredacted(After(m, ps), Out(ps)) == text <==> OneDomainEach(ps)
  {
    hide *;
    assert "*" in map["*" := s];
    ScanHasSuffixes(map["*" := s], text, ps);
    NoneBeginsIsEnough(map["*" := s], s, ps);
    OneSuffixRoundTripIff(s, m, text, fullInput, ps);
  }

  lemma LedgerHasLabels(m: Entries, ps: seq<Piece>)
    requires Ledger(m, ps)
    ensures LabelsIn(m, ps)
  {
  }
}
