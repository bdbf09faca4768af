/**
 How many units an attempt at a syllable tries, and how many syllables a word tries: counted on runs that
 know no limit.
 */
module TryLimits {
  import opened Phonology
  import opened Syllables
  import opened SyllableLaws

  /** One try of a unit in an attempt that never gives up. */
  function FreeTry(t: Alphabet, g: Gen, a: Attempt): Tried
  {
    match Pick(t, g, a)
    case NothingLeft => Ended(Exhausted)
    case Picked(h, b, u) => Effect(t, h, b, u, JudgeIn(t, b, u))
  }

  /** k tries, or fewer if the attempt ends. */
  function FreeTries(t: Alphabet, k: nat, g: Gen, a: Attempt): Tried
    decreases k
  {
    if k == 0 then Again(g, a)
    else
      match FreeTry(t, g, a)
      case Again(h, b) => FreeTries(t, k - 1, h, b)
      case Ended(outcome) => Ended(outcome)
  }

  /** The outcome of an attempt that has had a.tries of its tries. */
  lemma {:induction false} RunLimit(t: Alphabet, n: nat, g: Gen, a: Attempt)
    requires a.tries <= 4 * n + 34
    ensures match FreeTries(t, 4 * n + 34 - a.tries, g, a)
            case Ended(outcome) => Run(t, n, g, a) == outcome && !outcome.GaveUp?
            case Again(h, b) => if Pick(t, h, b).Picked? then Run(t, n, g, a).GaveUp? else Run(t, n, g, a).Exhausted?
    decreases 4 * n + 34 - a.tries
  {
    hide Judge, Place, Carry;
    RunOnce(t, n, g, a);
    if a.tries < 4 * n + 34 {
      var r := FreeTry(t, g, a);
      assert r == Try(t, n, g, a);
      if r.Again? {
        RunLimit(t, n, r.g, r.a);
      }
    }
  }

  /**
   An attempt at a syllable of at most n letters closes within 4n + 34 tries as it would without a limit, and
   gives up at try 4n + 35 exactly, whatever unit that one picks.
   */
  lemma AttemptLimit(t: Alphabet, n: nat, g: Gen)
    ensures var r, free := Run(t, n, g, Start(n)), FreeTries(t, 4 * n + 34, g, Start(n));
            && (r.GaveUp? <==> free.Again? && Pick(t, free.g, free.a).Picked?)
            && (r.Closed? <==> free.Ended? && free.outcome.Closed?)
            && (r.Closed? ==> free.outcome == r)
  {
    hide *;
    StartsUntried(n);
    RunLimit(t, n, g, Start(n));
  }

  lemma StartsUntried(n: nat)
    ensures Start(n).tries == 0
  {
  }

  datatype Progress = Dry | At(g: Gen, syllables: seq<seq<UnitId>>)

  /** k generated syllables, accepted or not, or fewer if the word is complete before. */
  function Rounds(t: Alphabet, length: nat, k: nat, g: Gen, syllables: seq<seq<UnitId>>): Progress
    decreases k
  {
    if k == 0 || Missing(t, length, syllables) <= 0 then At(g, syllables)
    else
      match NextSyllable(t, Missing(t, length, syllables), g)
      case OutOfDraws => Dry
      case Syllable(units, h) => Rounds(t, length, k - 1, h, Grow(t, length, syllables, units))
  }

  /** A complete word is returned; after an incomplete one, another syllable is the failure. */
  predicate Concludes(t: Alphabet, length: nat, p: Progress, r: WordResult)
  {
    match p
    case Dry => r == NoDraws
    case At(g, syllables) =>
      var n := Missing(t, length, syllables);
      if n <= 0 then r == Word(syllables, g)
      else
        var s := NextSyllable(t, n, g);
        r == if s.Syllable? then TooManyTries(s.g) else NoDraws
  }

  lemma {:induction false} ExtendLimit(t: Alphabet, length: nat, g: Gen, syllables: seq<seq<UnitId>>, tries: nat)
    requires tries <= 4 * length + 34
    ensures Concludes(t, length, Rounds(t, length, 4 * length + 34 - tries, g, syllables),
                      Extend(t, length, g, syllables, tries))
    decreases 4 * length + 34 - tries
  {
    hide NextSyllable, Grow, Missing;
    ExtendUnfolds(t, length, g, syllables, tries);
    if Missing(t, length, syllables) > 0 && tries < 4 * length + 34 {
      var r := NextSyllable(t, Missing(t, length, syllables), g);
      if r.Syllable? {
        ExtendLimit(t, length, r.g, Grow(t, length, syllables, r.units), tries + 1);
      }
    }
  }

  /**
   A word is complete after at most 4 * length + 34 generated syllables; otherwise the failure comes at
   syllable 4 * length + 35 exactly, even if that one would complete the word.
   */
  lemma WordLimit(t: Alphabet, length: nat, draws: seq<nat>)
    ensures Concludes(t, length, Rounds(t, length, 4 * length + 34, NewGen(draws), []), WordOf(t, length, draws))
  {
    hide Rounds, NextSyllable, Missing, Extend;
    ExtendLimit(t, length, NewGen(draws), [], 0);
  }
}
