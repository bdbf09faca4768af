/**
 How the syllables and words that are returned sound: the rules for whole syllables and whole words, said of
 the units, and that nothing else refuses a syllable.
 */
module WordSounds {
  import opened Phonology
  import opened Syllables
  import opened SyllableLaws

  /**
   Three units in a row: not all consonants; vowels only behind an initial y; and a vowel behind a consonant only
   if there was none before, but for an initial y, or if it ends the syllable and may.
   */
  predicate PlacedAt(t: Alphabet, units: seq<UnitId>, i: nat)
    requires 2 <= i < |units|
  {
    var x, y, z := t.IsVowel(units[i - 2]), t.IsVowel(units[i - 1]), t.IsVowel(units[i]);
    && (x || y || z)
    && (x && y && z ==> i == 2 && t.IsAlternate(units[0]))
    && (z && !y && (i < |units| - 1 || !t.IsUnsplit(units[i])) ==>
          forall j :: 0 <= j < i && t.IsVowel(units[j]) ==> j == 0 && t.IsAlternate(units[0]))
  }

  /** Every syllable returned is placed well, and a closed attempt that is placed well is returned. */
  lemma SyllableIsPlaced(t: Alphabet, n: nat, g: Gen)
    ensures var r := NextSyllable(t, n, g);
            r.Syllable? ==> forall i :: 2 <= i < |r.units| ==> PlacedAt(t, r.units, i)
    ensures var r := Run(t, n, g, Start(n));
            r.Closed? && (forall i :: 2 <= i < |r.units| ==> PlacedAt(t, r.units, i)) ==>
              NextSyllable(t, n, g) == Syllable(r.units, r.g)
  {
    hide Misplaced, PlacedAt, Run;
    var r, c := NextSyllable(t, n, g), Run(t, n, g, Start(n));
    if r.Syllable? {
      PlacedIff(t, r.units);
    }
    if c.Closed? {
      PlacedIff(t, c.units);
    }
  }

  lemma PlacedIff(t: Alphabet, units: seq<UnitId>)
    ensures !Misplaced(t, units) <==> forall i :: 2 <= i < |units| ==> PlacedAt(t, units, i)
  {
    hide MisplacedAt, PlacedAt;
    forall i | 2 <= i < |units|
      ensures MisplacedAt(t, units, i) <==> !PlacedAt(t, units, i)
    {
      PlacedAtIff(t, units, i);
    }
  }

  lemma PlacedAtIff(t: Alphabet, units: seq<UnitId>, i: nat)
    requires 2 <= i < |units|
    ensures MisplacedAt(t, units, i) <==> !PlacedAt(t, units, i)
  {
    forall j | 0 <= j < i
      ensures CountsAsVowel(t, units, j) <==> t.IsVowel(units[j]) && !(j == 0 && t.IsAlternate(units[0]))
    {
    }
  }

  /** Every pair, and every three, of neighbouring units of a word, across its syllables. */
  predicate SoundsAt(t: Alphabet, units: seq<UnitId>, i: nat)
    requires 1 <= i < |units|
  {
    && IllegalPair !in t.pair(units[i - 1], units[i])
    && (i >= 2 ==>
          var x, y, z := t.IsVowel(units[i - 2]), t.IsVowel(units[i - 1]), t.IsVowel(units[i]);
          (x || y || z) && (x && y && z ==> t.IsAlternate(units[i - 2])))
  }

  /** A vowel that is no initial y. */
  predicate FirstVowel(t: Alphabet, units: seq<UnitId>)
  {
    exists i :: 0 <= i < |units| && t.IsVowel(units[i]) && (i > 0 || !t.IsAlternate(units[i]))
  }

  predicate OnlyVowelAt(t: Alphabet, units: seq<UnitId>, j: nat)
    requires j < |units|
  {
    t.IsVowel(units[j]) && forall i :: 0 <= i < |units| && i != j ==> !t.IsVowel(units[i])
  }

  /** A single vowel, and a last unit that may not be split off. */
  predicate SplitsBadly(t: Alphabet, units: seq<UnitId>)
  {
    units != [] && t.IsUnsplit(units[|units| - 1]) && exists j :: 0 <= j < |units| && OnlyVowelAt(t, units, j)
  }

  lemma {:induction false} OneVowelIff(t: Alphabet, units: seq<UnitId>)
    ensures Vowels(t, units) == 1 <==> exists j :: 0 <= j < |units| && OnlyVowelAt(t, units, j)
  {
    if units != [] {
      var k := |units| - 1;
      var front := units[..k];
      OneVowelIff(t, front);
      VowelsExist(t, front);
      if t.IsVowel(units[k]) {
        assert Vowels(t, front) == 0 ==> OnlyVowelAt(t, units, k);
      } else {
        forall j | 0 <= j < k
          ensures OnlyVowelAt(t, units, j) <==> OnlyVowelAt(t, front, j)
        {
          SameVowels(t, units, k, j);
        }
      }
    }
  }

  lemma SameVowels(t: Alphabet, units: seq<UnitId>, k: nat, j: nat)
    requires j < k == |units| - 1 && !t.IsVowel(units[k])
    ensures OnlyVowelAt(t, units, j) <==> OnlyVowelAt(t, units[..k], j)
  {
    assert forall i :: 0 <= i < k ==> units[..k][i] == units[i];
  }

  lemma SplitsIff(t: Alphabet, units: seq<UnitId>)
    requires units != []
    ensures FinalSplit(t, units) <==> SplitsBadly(t, units)
  {
    hide OnlyVowelAt, Vowels;
    OneVowelIff(t, units);
  }

  lemma SoundsIff(t: Alphabet, units: seq<UnitId>)
    ensures Pronounceable(t, units) <==> forall i :: 1 <= i < |units| ==> SoundsAt(t, units, i)
  {
    if forall i :: 1 <= i < |units| ==> SoundsAt(t, units, i) {
      forall i | 1 <= i < |units|
        ensures MayFollow(t, units, i)
        ensures i >= 2 ==> && !ThreeConsonants(t, units, i)
                           && (ThreeVowels(t, units, i) ==> t.IsAlternate(units[i - 2]))
      {
        assert SoundsAt(t, units, i);
      }
    }
    if Pronounceable(t, units) {
      forall i | 1 <= i < |units|
        ensures SoundsAt(t, units, i)
      {
        assert MayFollow(t, units, i);
        assert i >= 2 ==> !ThreeConsonants(t, units, i);
      }
    }
  }

  /** The vowel that counts, in the two ways of saying it. */
  lemma FirstVowelIff(t: Alphabet, units: seq<UnitId>)
    ensures HasProperVowel(t, units) <==> FirstVowel(t, units)
  {
  }

  /**
   A generated syllable is taken into the word if and only if all neighbours sound, across its beginning too, the
   first syllable has a vowel that is no initial y, and a syllable that completes the word does not split badly.
   */
  lemma TakenIff(t: Alphabet, length: nat, syllables: seq<seq<UnitId>>, next: seq<UnitId>)
    requires next != []
    ensures var more := Join(syllables) + next;
            var taken :=
              && (forall i :: 1 <= i < |more| ==> SoundsAt(t, more, i))
              && (syllables == [] ==> FirstVowel(t, next))
              && (|t.Spell(more)| == length ==> !SplitsBadly(t, next));
            Grow(t, length, syllables, next) == if taken then syllables + [next] else syllables
  {
    hide Pronounceable, SoundsAt, FirstVowel, SplitsBadly, HasProperVowel, FinalSplit, Join, Alphabet.Spell;
    SoundsIff(t, Join(syllables) + next);
    FirstVowelIff(t, next);
    SplitsIff(t, next);
  }

  /** A word that is returned: how it sounds, a proper vowel in its first syllable, and how it ends. */
  lemma WordSounds(t: Alphabet, length: nat, draws: seq<nat>)
    requires t.Sound()
    ensures var r := WordOf(t, length, draws);
            r.Word? ==>
              && (forall i :: 1 <= i < |Join(r.syllables)| ==> SoundsAt(t, Join(r.syllables), i))
              && (r.syllables != [] ==>
                    && FirstVowel(t, r.syllables[0])
                    && !SplitsBadly(t, r.syllables[|r.syllables| - 1]))
  {
    hide *;
    WordIsGood(t, length, draws);
    var r := WordOf(t, length, draws);
    if r.Word? {
      SoundsIff(t, Join(r.syllables));
      if r.syllables != [] {
        EndsOf(t, length, r.syllables);
      }
    }
  }

  lemma EndsOf(t: Alphabet, length: nat, syllables: seq<seq<UnitId>>)
    requires syllables != [] && |t.Spell(Join(syllables))| == length
    requires forall k :: 0 <= k < |syllables| ==> GoodAt(t, length, syllables, k)
    ensures FirstVowel(t, syllables[0]) && !SplitsBadly(t, syllables[|syllables| - 1])
  {
    hide FinalSplit, SplitsBadly, HasProperVowel, FirstVowel, Misplaced, OpensWell, ClosesWell, HasVowel, Join,
      Alphabet.Spell;
    var k := |syllables| - 1;
    assert GoodAt(t, length, syllables, 0) && GoodAt(t, length, syllables, k);
    assert syllables[..k + 1] == syllables;
    FirstVowelIff(t, syllables[0]);
    SplitsIff(t, syllables[k]);
  }
}
