/**
 What every syllable and every word of the generator satisfies, for all draws and all retries.
 */
module SyllableLaws {
  import opened Phonology
  import opened Syllables

  /** No syllable begins with x or ck, and a second unit may follow the first at a beginning. */
  predicate OpensWell(t: Alphabet, units: seq<UnitId>)
  {
    && (units != [] ==> !t.CannotBegin(units[0]))
    && (|units| >= 2 ==> NotBegin !in t.pair(units[0], units[1]))
  }

  /** No syllable ends on a pair that cannot end one. */
  predicate ClosesWell(t: Alphabet, n: nat, units: seq<UnitId>, saved: nat)
  {
    (|units| >= 3 && |t.Spell(units)| == n) || (|units| >= 2 && saved == 1) ==>
      NotEnd !in t.pair(units[|units| - 2], units[|units| - 1])
  }

  /** The carried units fit in room letters, and one letter more fits after a carried pair. */
  predicate CarryFits(t: Alphabet, g: Gen, room: int)
  {
    && g.saved <= 2
    && (g.saved == 1 ==> t.Len(g.first) <= room)
    && (g.saved == 2 ==> t.Len(g.second) + t.Len(g.first) + 1 <= room)
  }

  /** Whatever pair is left behind, its older unit may begin a syllable. */
  predicate GoodPair(t: Alphabet, g: Gen)
  {
    g.saved <= 2 && !t.CannotBegin(g.second)
  }

  /** Holds before every try of a unit. */
  predicate Underway(t: Alphabet, n: nat, g: Gen, a: Attempt)
  {
    && GoodPair(t, g)
    && (g.saved != 0 ==> a.units == [])
    && |t.Spell(a.units)| + a.left == n
    && (a.left >= 0 || |a.units| <= 1)
    && a.vowels <= Vowels(t, a.units)
    && OpensWell(t, a.units)
  }

  /** Holds of every syllable that is returned. */
  predicate GoodSyllable(t: Alphabet, n: nat, units: seq<UnitId>, g: Gen)
  {
    && units != []
    && |t.Spell(units)| <= n
    && CarryFits(t, g, n - |t.Spell(units)|)
    && (|t.Spell(units)| < n ==> HasVowel(t, units))
    && OpensWell(t, units)
    && ClosesWell(t, n, units, g.saved)
  }

  /** The units of an attempt fit into an array of more than n elements. */
  lemma FitsInArray(t: Alphabet, n: nat, g: Gen, a: Attempt)
    requires t.Sound() && Underway(t, n, g, a) && n >= 1
    ensures |a.units| <= n
  {
    t.SpellLength(a.units);
  }

  lemma PickKeeps(t: Alphabet, n: nat, g: Gen, a: Attempt)
    requires t.Sound() && Underway(t, n, g, a)
    ensures var p := Pick(t, g, a);
            p.Picked? ==> Underway(t, n, p.g, p.a) && p.g.saved == 0
  {
    if g.saved == 2 {
      t.SpellAppend([], g.second);
      VowelsAppend(t, [], g.second);
      assert [g.second] == [] + [g.second];
    }
  }

  lemma PlaceKeeps(t: Alphabet, n: nat, g: Gen, a: Attempt, u: UnitId)
    requires t.Sound() && Underway(t, n, g, a) && g.saved == 0
    requires JudgeIn(t, a, u).Accept?
    ensures Underway(t, n, g, Place(t, a, u))
    ensures !JudgeIn(t, a, u).more ==> GoodSyllable(t, n, Place(t, a, u).units, g)
  {
    t.SpellAppend(a.units, u);
    VowelsAppend(t, a.units, u);
    VowelsExist(t, a.units + [u]);
  }

  lemma CarryCloses(t: Alphabet, n: nat, g: Gen, a: Attempt, u: UnitId)
    requires t.Sound() && Underway(t, n, g, a) && g.saved == 0
    requires JudgeIn(t, a, u).CarryOne? || JudgeIn(t, a, u).CarryPair?
    ensures var v := JudgeIn(t, a, u);
            var units := if v.CarryOne? then a.units else a.units[..|a.units| - 1];
            var h := Carry(g, a.units, u, v);
            GoodSyllable(t, n, units, h) && GoodPair(t, h)
  {
    VowelsExist(t, a.units);
    var c := |a.units|;
    if JudgeIn(t, a, u).CarryPair? {
      var front := a.units[..c - 1];
      assert front[0] == a.units[0];
      VowelsExist(t, front);
    }
  }

  /** One round of the innermost loop, from the generator and attempt the pick leaves. */
  lemma RunAfterPick(t: Alphabet, n: nat, g: Gen, a: Attempt)
    requires t.Sound() && Underway(t, n, g, a) && a.tries <= TryLimit(n)
    ensures var p := Pick(t, g, a);
            if !p.Picked? then Run(t, n, g, a) == Exhausted
            else
              var v := JudgeIn(t, p.a, p.unit);
              && Underway(t, n, p.g, p.a) && p.g.saved == 0
              && Run(t, n, g, a) == Resume(t, n, Settle(t, n, p.g, p.a, p.unit, v))
              && (v == Reject ==>
                    var b := p.a.(tries := a.tries + 1);
                    Underway(t, n, p.g, b) && (a.tries < TryLimit(n) ==> Run(t, n, g, a) == Run(t, n, p.g, b)))
  {
    PickKeeps(t, n, g, a);
  }

  predicate GoodOutcome(t: Alphabet, n: nat, outcome: Outcome)
  {
    && (outcome.GaveUp? ==> GoodPair(t, outcome.g))
    && (outcome.Closed? ==> GoodSyllable(t, n, outcome.units, outcome.g) && GoodPair(t, outcome.g))
  }

  /** What the invariant needs to know of a verdict. */
  predicate Justified(t: Alphabet, n: nat, g: Gen, a: Attempt, u: UnitId, v: Verdict)
  {
    && (v.Accept? ==> && Underway(t, n, g, Place(t, a, u))
                      && (!v.more ==> GoodSyllable(t, n, Place(t, a, u).units, g)))
    && (v.CarryOne? ==> GoodSyllable(t, n, a.units, Carry(g, a.units, u, v)) && GoodPair(t, Carry(g, a.units, u, v)))
    && (v.CarryPair? ==> && a.units != []
                         && GoodSyllable(t, n, a.units[..|a.units| - 1], Carry(g, a.units, u, v))
                         && GoodPair(t, Carry(g, a.units, u, v)))
  }

  lemma JudgeIsJustified(t: Alphabet, n: nat, g: Gen, a: Attempt, u: UnitId)
    requires t.Sound() && Underway(t, n, g, a) && g.saved == 0
    ensures Justified(t, n, g, a, u, JudgeIn(t, a, u))
  {
    var v := JudgeIn(t, a, u);
    if v.Accept? {
      PlaceKeeps(t, n, g, a, u);
    } else if v != Reject {
      CarryCloses(t, n, g, a, u);
    }
  }

  lemma SettleKeeps(t: Alphabet, n: nat, g: Gen, a: Attempt, u: UnitId, v: Verdict)
    requires Underway(t, n, g, a) && a.tries <= TryLimit(n) && Justified(t, n, g, a, u, v)
    ensures match Settle(t, n, g, a, u, v)
            case Again(h, b) => Underway(t, n, h, b)
            case Ended(outcome) => GoodOutcome(t, n, outcome)
  {
  }

  lemma TryKeeps(t: Alphabet, n: nat, g: Gen, a: Attempt)
    requires t.Sound() && Underway(t, n, g, a) && a.tries <= TryLimit(n)
    ensures match Try(t, n, g, a)
            case Again(h, b) => Underway(t, n, h, b)
            case Ended(outcome) => GoodOutcome(t, n, outcome)
  {
    PickKeeps(t, n, g, a);
    var p := Pick(t, g, a);
    if p.Picked? {
      var v := JudgeIn(t, p.a, p.unit);
      JudgeIsJustified(t, n, p.g, p.a, p.unit);
      SettleKeeps(t, n, p.g, p.a, p.unit, v);
    }
  }

  lemma StartsUnderway(t: Alphabet, n: nat, g: Gen)
    requires GoodPair(t, g)
    ensures Underway(t, n, g, Start(n))
  {
  }

  /** One round of the middle loop: what the attempt comes to, verdict by verdict. */
  lemma RunAfterVerdict(t: Alphabet, n: nat, g: Gen, a: Attempt, u: UnitId, v: Verdict)
    requires t.Sound() && Underway(t, n, g, a) && g.saved == 0 && a.tries <= TryLimit(n)
    requires v == JudgeIn(t, a, u)
    ensures var r := Resume(t, n, Settle(t, n, g, a, u, v));
            var h := Carry(g, a.units, u, v);
            if a.tries == TryLimit(n) then r == GaveUp(h)
            else
              match v
              case Reject => true
              case Accept(more) =>
                var b := Place(t, a, u).(tries := a.tries + 1);
                if more then Underway(t, n, g, b) && r == Run(t, n, g, b) else r == Closed(b.units, h)
              case CarryOne => r == Closed(a.units, h)
              case CarryPair => r == Closed(a.units[..|a.units| - 1], h)
  {
    hide Run;
    if v.Accept? {
      PlaceKeeps(t, n, g, a, u);
    }
  }

  /** An attempt closes only on good syllables. */
  lemma RunIsGood(t: Alphabet, n: nat, g: Gen)
    requires t.Sound() && GoodPair(t, g)
    ensures GoodOutcome(t, n, Run(t, n, g, Start(n)))
  {
    forall h: Gen, b: Attempt | b.tries <= TryLimit(n) && Underway(t, n, h, b)
      ensures match Try(t, n, h, b)
              case Again(h', b') => Underway(t, n, h', b')
              case Ended(outcome) => GoodOutcome(t, n, outcome)
    {
      TryKeeps(t, n, h, b);
    }
    RunInduction(t, n, g, Start(n), (h, b) => Underway(t, n, h, b), outcome => GoodOutcome(t, n, outcome));
  }

  /** Every syllable is good after any number of retries, whatever pair a retry starts from. */
  lemma {:induction false} SyllableIsGood(t: Alphabet, n: nat, g: Gen)
    requires t.Sound() && GoodPair(t, g)
    ensures var r := NextSyllable(t, n, g);
            r.Syllable? ==> GoodSyllable(t, n, r.units, r.g) && GoodPair(t, r.g)
    decreases |g.draws|
  {
    RunIsGood(t, n, g);
    RunSpends(t, n, g);
    var r := Run(t, n, g, Start(n));
    if r.GaveUp? || (r.Closed? && Misplaced(t, r.units)) {
      SyllableIsGood(t, n, r.g.(saved := g.saved));
    }
  }

  /** One syllable among those of a word of length letters. */
  predicate GoodAt(t: Alphabet, length: nat, syllables: seq<seq<UnitId>>, k: nat)
    requires k < |syllables|
  {
    var fills := |t.Spell(Join(syllables[..k + 1]))| == length;
    && syllables[k] != []
    && OpensWell(t, syllables[k])
    && !Misplaced(t, syllables[k])
    && (!fills ==> HasVowel(t, syllables[k]))
    && (fills && |syllables[k]| >= 3 ==> ClosesWell(t, |t.Spell(syllables[k])|, syllables[k], 0))
    && (fills ==> !FinalSplit(t, syllables[k]))
    && (k == 0 ==> HasProperVowel(t, syllables[0]))
  }

  /** Holds of the accepted syllables before and after every call for another one. */
  predicate GoodWordSoFar(t: Alphabet, length: nat, syllables: seq<seq<UnitId>>, g: Gen)
  {
    && |t.Spell(Join(syllables))| <= length
    && CarryFits(t, g, length - |t.Spell(Join(syllables))|)
    && GoodPair(t, g)
    && Pronounceable(t, Join(syllables))
    && (forall k :: 0 <= k < |syllables| ==> GoodAt(t, length, syllables, k))
  }

  lemma TakingKeeps(t: Alphabet, length: nat, syllables: seq<seq<UnitId>>, g: Gen, next: seq<UnitId>, h: Gen)
    requires t.Sound() && GoodWordSoFar(t, length, syllables, g)
    requires var n := length - |t.Spell(Join(syllables))|;
             GoodSyllable(t, n, next, h) && GoodPair(t, h) && !Misplaced(t, next)
    ensures |t.Spell(Join(syllables + [next]))| == |t.Spell(Join(syllables))| + |t.Spell(next)|
    ensures Join(syllables + [next]) == Join(syllables) + next
    ensures Takes(t, length, syllables, next) ==> GoodWordSoFar(t, length, syllables + [next], h)
    ensures GoodWordSoFar(t, length, syllables, h)
  {
    hide Pronounceable, Misplaced, OpensWell, HasVowel, HasProperVowel, FinalSplit, Alphabet.Sound, GoodPair;
    var more := syllables + [next];
    assert more[..|syllables|] == syllables;
    t.SpellConcat(Join(syllables), next);
    if Takes(t, length, syllables, next) {
      forall k | 0 <= k < |more|
        ensures GoodAt(t, length, more, k)
      {
        if k < |syllables| {
          assert GoodAt(t, length, syllables, k);
          assert more[..k + 1] == syllables[..k + 1];
        } else {
          assert more[..k + 1] == more;
        }
      }
    }
  }

  lemma GrowIsGood(t: Alphabet, length: nat, syllables: seq<seq<UnitId>>, g: Gen)
    requires t.Sound() && GoodWordSoFar(t, length, syllables, g)
    requires Missing(t, length, syllables) > 0
    ensures var s := NextSyllable(t, Missing(t, length, syllables), g);
            s.Syllable? ==> GoodWordSoFar(t, length, Grow(t, length, syllables, s.units), s.g)
  {
    var n := Missing(t, length, syllables);
    SyllableIsGood(t, n, g);
    var s := NextSyllable(t, n, g);
    if s.Syllable? {
      TakingKeeps(t, length, syllables, g, s.units, s.g);
    }
  }

  lemma ExtendIsGood(t: Alphabet, length: nat, g: Gen, syllables: seq<seq<UnitId>>, tries: nat)
    requires t.Sound() && tries <= TryLimit(length) && GoodWordSoFar(t, length, syllables, g)
    ensures var r := Extend(t, length, g, syllables, tries);
            r.Word? ==> GoodWordSoFar(t, length, r.syllables, r.g) && Missing(t, length, r.syllables) <= 0
  {
    forall h: Gen, s: seq<seq<UnitId>> | GoodWordSoFar(t, length, s, h) && Missing(t, length, s) > 0
      ensures var r := NextSyllable(t, Missing(t, length, s), h);
              r.Syllable? ==> GoodWordSoFar(t, length, Grow(t, length, s, r.units), r.g)
    {
      GrowIsGood(t, length, s, h);
    }
    WordInduction(t, length, g, syllables, tries, (h, s) => GoodWordSoFar(t, length, s, h));
  }

  /** The generator as a word begins. */
  function NewGen(draws: seq<nat>): Gen { Gen(0, 0, 0, draws) }

  /** What genWord computes for a word of length letters. */
  function WordOf(t: Alphabet, length: nat, draws: seq<nat>): WordResult
  {
    Extend(t, length, NewGen(draws), [], 0)
  }

  lemma NothingIsGood(t: Alphabet, length: nat, g: Gen)
    requires t.Sound() && g == NewGen(g.draws)
    ensures GoodWordSoFar(t, length, [], g)
    ensures WordOf(t, length, g.draws) == Extend(t, length, g, [], 0)
  {
  }

  /** The next syllable of a word: generated from a good carry, and good itself. */
  lemma RoundIsGood(t: Alphabet, length: nat, g: Gen, syllables: seq<seq<UnitId>>)
    requires t.Sound() && GoodWordSoFar(t, length, syllables, g) && Missing(t, length, syllables) > 0
    ensures GoodPair(t, g)
    ensures var r := NextSyllable(t, Missing(t, length, syllables), g);
            r.Syllable? ==> && GoodSyllable(t, Missing(t, length, syllables), r.units, r.g)
                            && GoodPair(t, r.g) && !Misplaced(t, r.units)
                            && GoodWordSoFar(t, length, Grow(t, length, syllables, r.units), r.g)
  {
    hide Takes, GoodAt;
    SyllableIsGood(t, Missing(t, length, syllables), g);
    GrowIsGood(t, length, syllables, g);
  }

  /** One round of the word loop. */
  lemma ExtendOnce(t: Alphabet, length: nat, g: Gen, syllables: seq<seq<UnitId>>, tries: nat)
    requires t.Sound() && tries <= TryLimit(length) && GoodWordSoFar(t, length, syllables, g)
    requires Missing(t, length, syllables) > 0
    ensures var r := NextSyllable(t, Missing(t, length, syllables), g);
            match r
            case OutOfDraws => Extend(t, length, g, syllables, tries) == NoDraws
            case Syllable(units, h) =>
              var more := Grow(t, length, syllables, units);
              && GoodWordSoFar(t, length, more, h)
              && Extend(t, length, g, syllables, tries) ==
                 if tries == TryLimit(length) then TooManyTries(h) else Extend(t, length, h, more, tries + 1)
  {
    hide Takes, GoodAt;
    GrowIsGood(t, length, syllables, g);
  }

  lemma ExtendDone(t: Alphabet, length: nat, g: Gen, syllables: seq<seq<UnitId>>, tries: nat)
    requires tries <= TryLimit(length) && Missing(t, length, syllables) <= 0
    ensures Extend(t, length, g, syllables, tries) == Word(syllables, g)
  {
  }

  /** The units of the next syllable fit behind those of the word so far. */
  lemma NextFits(t: Alphabet, length: nat, syllables: seq<seq<UnitId>>, g: Gen, next: seq<UnitId>, h: Gen)
    requires t.Sound() && GoodWordSoFar(t, length, syllables, g)
    requires GoodSyllable(t, Missing(t, length, syllables), next, h) && GoodPair(t, h) && !Misplaced(t, next)
    ensures |Join(syllables)| + |next| <= length
    ensures Join(syllables + [next]) == Join(syllables) + next
    ensures t.Spell(Join(syllables) + next) == t.Spell(Join(syllables)) + t.Spell(next)
  {
    hide GoodAt, Pronounceable;
    assert (syllables + [next])[..|syllables|] == syllables;
    t.SpellLength(Join(syllables));
    t.SpellLength(next);
    t.SpellConcat(Join(syllables), next);
  }

  /** The three tests after a syllable, on lengths that are kept up to date. */
  lemma GrowMeans(t: Alphabet, length: nat, syllables: seq<seq<UnitId>>, g: Gen, next: seq<UnitId>)
    requires t.Sound() && next != [] && GoodWordSoFar(t, length, syllables, g)
    ensures var have := |t.Spell(Join(syllables))|;
            Grow(t, length, syllables, next) ==
            if || !Pronounceable(t, Join(syllables) + next)
               || (have == 0 && !HasProperVowel(t, next))
               || (have + |t.Spell(next)| == length && FinalSplit(t, next))
            then syllables
            else syllables + [next]
  {
    hide Pronounceable, HasProperVowel, FinalSplit, Misplaced, OpensWell, ClosesWell, HasVowel;
    if syllables != [] {
      var last := |syllables| - 1;
      assert GoodAt(t, length, syllables, last);
      assert Join(syllables) != [];
    }
    t.SpellLength(Join(syllables));
    t.SpellConcat(Join(syllables), next);
  }

  /**
   Every successful word: exact length, pronounceable as a whole, made of good syllables only, with
   a proper vowel in the first one, no split at the end, and nothing left to carry.
   */
  lemma WordIsGood(t: Alphabet, length: nat, draws: seq<nat>)
    requires t.Sound()
    ensures var r := WordOf(t, length, draws);
            r.Word? ==>
              && |t.Spell(Join(r.syllables))| == length
              && IsLowerWord(t.Spell(Join(r.syllables)))
              && Pronounceable(t, Join(r.syllables))
              && (forall k :: 0 <= k < |r.syllables| ==> GoodAt(t, length, r.syllables, k))
              && r.g.saved == 0
  {
    ExtendIsGood(t, length, NewGen(draws), [], 0);
    var r := WordOf(t, length, draws);
    if r.Word? {
      t.SpellLength(Join(r.syllables));
      assert 1 <= t.Len(r.g.first);
    }
  }

  /** Every unit of a syllable, and every unit it carries over, was drawn or carried in. */
  lemma {:induction false} SyllableConsumes(t: Alphabet, n: nat, g: Gen)
    requires t.Sound() && GoodPair(t, g)
    ensures var r := NextSyllable(t, n, g);
            r.Syllable? ==> |r.g.draws| + Carried(r.g) + |r.units| <= |g.draws| + Carried(g)
    decreases |g.draws|
  {
    RunSpends(t, n, g);
    RunIsGood(t, n, g);
    var r := Run(t, n, g, Start(n));
    if r.GaveUp? || (r.Closed? && Misplaced(t, r.units)) {
      SyllableConsumes(t, n, r.g.(saved := g.saved));
    }
  }

  lemma SyllableSpends(t: Alphabet, n: nat, g: Gen)
    requires t.Sound() && GoodPair(t, g)
    ensures var r := NextSyllable(t, n, g);
            r.Syllable? ==> GoodPair(t, r.g) && |r.g.draws| + Carried(r.g) < |g.draws| + Carried(g)
  {
    SyllableIsGood(t, n, g);
    SyllableConsumes(t, n, g);
  }

  lemma {:induction false} ExtendConsumes(t: Alphabet, length: nat, g: Gen, syllables: seq<seq<UnitId>>, tries: nat)
    requires t.Sound() && tries <= TryLimit(length) && GoodPair(t, g)
    ensures var r := Extend(t, length, g, syllables, tries);
            && (r.Word? ==> |r.g.draws| + Carried(r.g) <= |g.draws| + Carried(g))
            && (r.Word? && Missing(t, length, syllables) > 0 ==> |r.g.draws| + Carried(r.g) < |g.draws| + Carried(g))
            && (r.TooManyTries? ==> |r.g.draws| + TryLimit(length) < |g.draws| + Carried(g) + tries)
    decreases TryLimit(length) - tries
  {
    hide Grow, NextSyllable, Alphabet.Sound;
    var n := Missing(t, length, syllables);
    if n > 0 {
      SyllableSpends(t, n, g);
      var s := NextSyllable(t, n, g);
      if s.Syllable? && tries < TryLimit(length) {
        ExtendConsumes(t, length, s.g, Grow(t, length, syllables, s.units), tries + 1);
      }
    }
  }

  /** A word, or the failure to make one, uses up draws. */
  lemma WordConsumes(t: Alphabet, length: nat, draws: seq<nat>)
    requires t.Sound() && length > 0
    ensures var r := WordOf(t, length, draws);
            && (r.Word? ==> |r.g.draws| < |draws|)
            && (r.TooManyTries? ==> |r.g.draws| + 4 * length + 34 < |draws|)
  {
    ExtendConsumes(t, length, NewGen(draws), [], 0);
  }
}
