/**
 What the name generator computes: one try of a unit, one attempt at a syllable, a syllable after
 any number of retries, and a word. The random source is a finite supply of raw draws; a run that
 wants more than the supply holds is OutOfDraws.
 */
module Syllables {
  import opened Phonology

  /**
   The state that outlives a syllable: how many units are carried into the next one, the carried
   pair (first is the unit drawn last, second the unit placed before it) and the draws to come.
   The pair keeps its old contents when saved is reset.
   */
  datatype Gen = Gen(saved: nat, first: UnitId, second: UnitId, draws: seq<nat>)

  /** An attempt at a syllable: units placed, vowels counted, letters left, tries spent. */
  datatype Attempt = Attempt(units: seq<UnitId>, vowels: nat, left: int, tries: nat)

  datatype Verdict = Reject | Accept(more: bool) | CarryOne | CarryPair

  datatype Outcome = Exhausted | GaveUp(g: Gen) | Closed(units: seq<UnitId>, g: Gen)

  datatype Tried = Again(g: Gen, a: Attempt) | Ended(outcome: Outcome)

  datatype SyllableResult = OutOfDraws | Syllable(units: seq<UnitId>, g: Gen)

  datatype WordResult = NoDraws | TooManyTries(g: Gen) | Word(syllables: seq<seq<UnitId>>, g: Gen)

  datatype Picked = NothingLeft | Picked(g: Gen, a: Attempt, unit: UnitId)

  /** How many units wait to be used. */
  function Carried(g: Gen): nat { if g.saved == 2 then 2 else if g.saved != 0 then 1 else 0 }

  function TryLimit(n: nat): nat { 4 * n + 34 }

  /** The unit to try next: a carried unit first, then draws. A carried pair is placed half at once. */
  function Pick(t: Alphabet, g: Gen, a: Attempt): Picked
  {
    if g.saved == 2 then
      Picked(g.(saved := 0),
             a.(units := [g.second],
                vowels := a.vowels + if t.IsVowel(g.second) then 1 else 0,
                left := a.left - t.Len(g.second)),
             g.first)
    else if g.saved != 0 then
      Picked(g.(saved := 0), a, g.first)
    else if g.draws == [] then
      NothingLeft
    else
      Picked(g.(draws := g.draws[1..]), a, t.number(g.draws[0]))
  }

  /** Neighbour rules that forbid u after units, when left letters remain after u. */
  predicate Forbidden(t: Alphabet, units: seq<UnitId>, vowels: nat, left: int, u: UnitId)
    requires units != []
  {
    var c := |units|;
    var last := units[c - 1];
    var f := t.pair(last, u);
    || IllegalPair in f
    || (Break in f && vowels == 0)
    || (End in f && vowels == 0 && !t.IsVowel(u))
    || (c == 1 && NotBegin in f)
    || (c == 2 && Begin in f && t.IsAlternate(units[0]))
    || (c >= 2 && (|| (NotEnd in f && left == 0)
                   || (Break in f && NotEnd in t.pair(units[c - 2], last))
                   || (Prefix in f && !t.IsVowel(units[c - 2]))))
  }

  /** A vowel that would join a syllable that already has its vowel. */
  predicate SecondVowel(t: Alphabet, units: seq<UnitId>, left: int, u: UnitId)
    requires units != []
  {
    |units| >= 2 && t.IsVowel(u) && (left > 0 || !t.IsUnsplit(units[|units| - 1]))
  }

  /** What becomes of unit u after units, when left letters remain after it. */
  function Judge(t: Alphabet, units: seq<UnitId>, vowels: nat, left: int, u: UnitId): (v: Verdict)
    ensures v.CarryOne? ==> units != []
    ensures v.CarryPair? ==> |units| > 1
  {
    if left < 0 then Reject
    else if units == [] then
      if t.CannotBegin(u) || (left == 0 && !t.IsVowel(u)) then Reject else Accept(left != 0)
    else
      var c := |units|;
      var last := units[c - 1];
      var f := t.pair(last, u);
      if Forbidden(t, units, vowels, left, u) then Reject
      else if SecondVowel(t, units, left, u) && vowels > 1 && t.IsVowel(last) then Reject
      else if SecondVowel(t, units, left, u) && vowels != 0 && !t.IsVowel(last) then
        if NotEnd in t.pair(units[c - 2], last) then Reject else CarryOne
      else if End in f || left == 0 then Accept(false)
      else if vowels != 0 && Begin in f && c > 1 && !(vowels == 1 && t.IsVowel(last)) then CarryPair
      else if vowels != 0 && Break in f then CarryOne
      else Accept(true)
  }

  /** What becomes of unit u in attempt a. */
  function JudgeIn(t: Alphabet, a: Attempt, u: UnitId): (v: Verdict)
    ensures v.CarryOne? ==> a.units != []
    ensures v.CarryPair? ==> |a.units| > 1
  {
    Judge(t, a.units, a.vowels, a.left - t.Len(u), u)
  }

  /** The generator after verdict v on unit u: a carry overwrites the saved pair. */
  function Carry(g: Gen, units: seq<UnitId>, u: UnitId, v: Verdict): Gen
    requires v.CarryPair? ==> units != []
  {
    match v
    case Reject => g
    case Accept(_) => g
    case CarryOne => g.(saved := 1, first := u)
    case CarryPair => g.(saved := 2, first := u, second := units[|units| - 1])
  }

  /** The attempt after u is placed. An initial y counts as a vowel only when it was carried there. */
  function Place(t: Alphabet, a: Attempt, u: UnitId): Attempt
  {
    Attempt(a.units + [u],
            a.vowels + (if t.IsVowel(u) && (a.units != [] || !t.IsAlternate(u)) then 1 else 0),
            a.left - t.Len(u),
            a.tries)
  }

  /** What verdict v on unit u makes of an attempt, whatever number of tries it has had. */
  function Effect(t: Alphabet, g: Gen, a: Attempt, u: UnitId, v: Verdict): (r: Tried)
    requires v.CarryPair? ==> a.units != []
    ensures r.Again? ==> r.a.tries == a.tries + 1
  {
    var h := Carry(g, a.units, u, v);
    match v
    case Reject => Again(h, a.(tries := a.tries + 1))
    case Accept(more) =>
      var b := Place(t, a, u);
      if more then Again(h, b.(tries := a.tries + 1)) else Ended(Closed(b.units, h))
    case CarryOne => Ended(Closed(a.units, h))
    case CarryPair => Ended(Closed(a.units[..|a.units| - 1], h))
  }

  /** The same in an attempt at a syllable of at most n letters, which may have to give up. */
  function Settle(t: Alphabet, n: nat, g: Gen, a: Attempt, u: UnitId, v: Verdict): (r: Tried)
    requires a.tries <= TryLimit(n)
    requires v.CarryPair? ==> a.units != []
    ensures r.Again? ==> r.a.tries == a.tries + 1 <= TryLimit(n)
  {
    if a.tries == TryLimit(n) then Ended(GaveUp(Carry(g, a.units, u, v))) else Effect(t, g, a, u, v)
  }

  /** One try of a unit. */
  function Try(t: Alphabet, n: nat, g: Gen, a: Attempt): (r: Tried)
    requires a.tries <= TryLimit(n)
    ensures r.Again? ==> r.a.tries == a.tries + 1 <= TryLimit(n)
  {
    match Pick(t, g, a)
    case NothingLeft => Ended(Exhausted)
    case Picked(h, b, u) => Settle(t, n, h, b, u, JudgeIn(t, b, u))
  }

  /** One attempt at a syllable of at most n letters, from the middle of it. */
  function Run(t: Alphabet, n: nat, g: Gen, a: Attempt): Outcome
    requires a.tries <= TryLimit(n)
    decreases TryLimit(n) - a.tries
  {
    match Try(t, n, g, a)
    case Again(h, b) => Run(t, n, h, b)
    case Ended(outcome) => outcome
  }

  /** The attempt after a try. */
  function Resume(t: Alphabet, n: nat, r: Tried): Outcome
    requires r.Again? ==> r.a.tries <= TryLimit(n)
  {
    match r
    case Again(h, b) => Run(t, n, h, b)
    case Ended(outcome) => outcome
  }

  lemma RunOnce(t: Alphabet, n: nat, g: Gen, a: Attempt)
    requires a.tries <= TryLimit(n)
    ensures Run(t, n, g, a) == Resume(t, n, Try(t, n, g, a))
  {
  }

  function Start(n: nat): Attempt { Attempt([], 0, n, 0) }

  /** Counted by the placement check: a vowel, unless it is an initial y of a longer syllable. */
  predicate CountsAsVowel(t: Alphabet, units: seq<UnitId>, i: nat)
    requires i < |units|
  {
    t.IsVowel(units[i]) && !(i == 0 && t.IsAlternate(units[0]) && |units| > 1)
  }

  predicate ThreeConsonants(t: Alphabet, units: seq<UnitId>, i: nat)
    requires 2 <= i < |units|
  {
    !t.IsVowel(units[i - 2]) && !t.IsVowel(units[i - 1]) && !t.IsVowel(units[i])
  }

  predicate ThreeVowels(t: Alphabet, units: seq<UnitId>, i: nat)
    requires 2 <= i < |units|
  {
    t.IsVowel(units[i - 2]) && t.IsVowel(units[i - 1]) && t.IsVowel(units[i])
  }

  /** A vowel at i that follows a consonant although an earlier vowel was counted. */
  predicate SplitVowels(t: Alphabet, units: seq<UnitId>, i: nat)
    requires 2 <= i < |units|
  {
    && !t.IsVowel(units[i - 1])
    && t.IsVowel(units[i])
    && !(t.IsUnsplit(units[i]) && i == |units| - 1)
    && exists j :: 0 <= j < i && CountsAsVowel(t, units, j)
  }

  predicate MisplacedAt(t: Alphabet, units: seq<UnitId>, i: nat)
    requires 2 <= i < |units|
  {
    || SplitVowels(t, units, i)
    || ThreeConsonants(t, units, i)
    || (ThreeVowels(t, units, i) && !(i == 2 && t.IsAlternate(units[0])))
  }

  /** A syllable that a placement rule forbids. */
  predicate Misplaced(t: Alphabet, units: seq<UnitId>)
  {
    exists i :: 2 <= i < |units| && MisplacedAt(t, units, i)
  }

  lemma MisplacedNeedsThree(t: Alphabet, units: seq<UnitId>)
    requires Misplaced(t, units)
    ensures |units| >= 3
  {
  }

  /** What holds before every try, and leads to ok when an attempt ends, gives ok of the attempt. */
  lemma {:induction false} RunInduction(t: Alphabet, n: nat, g: Gen, a: Attempt,
                                        inv: (Gen, Attempt) -> bool, ok: Outcome -> bool)
    requires a.tries <= TryLimit(n) && inv(g, a)
    requires forall h: Gen, b: Attempt :: b.tries <= TryLimit(n) && inv(h, b) ==>
               match Try(t, n, h, b)
               case Again(h', b') => inv(h', b')
               case Ended(outcome) => ok(outcome)
    ensures ok(Run(t, n, g, a))
    decreases TryLimit(n) - a.tries
  {
    match Try(t, n, g, a)
    case Again(h, b) => RunInduction(t, n, h, b, inv, ok);
    case Ended(_) =>
  }

  /** Draws and carried units still unused, against the units placed and the tries spent. */
  predicate Spent(n: nat, g: Gen, h: Gen, b: Attempt)
  {
    && (h.saved != 0 ==> b == Start(n) && h == g)
    && |h.draws| + Carried(h) + |b.units| <= |g.draws| + Carried(g)
    && |h.draws| + b.tries + (if h.saved == 0 then 0 else 1) <= |g.draws| + 1
  }

  predicate SpentAtEnd(n: nat, g: Gen, outcome: Outcome)
  {
    match outcome
    case Exhausted => true
    case GaveUp(h) => |h.draws| + 4 * n + 34 <= |g.draws|
    case Closed(units, h) => |h.draws| + Carried(h) + |units| <= |g.draws| + Carried(g)
  }

  lemma TrySpends(t: Alphabet, n: nat, g: Gen, h: Gen, b: Attempt)
    requires b.tries <= TryLimit(n) && Spent(n, g, h, b)
    ensures match Try(t, n, h, b)
            case Again(h', b') => Spent(n, g, h', b')
            case Ended(outcome) => SpentAtEnd(n, g, outcome)
  {
  }

  /**
   Draws are used up: an attempt that gives up has spent all its tries on them (but the first), and
   every unit of a closed syllable, or carried out of it, was drawn or carried in.
   */
  lemma RunSpends(t: Alphabet, n: nat, g: Gen)
    ensures SpentAtEnd(n, g, Run(t, n, g, Start(n)))
  {
    forall h: Gen, b: Attempt | b.tries <= TryLimit(n) && Spent(n, g, h, b)
      ensures match Try(t, n, h, b)
              case Again(h', b') => Spent(n, g, h', b')
              case Ended(outcome) => SpentAtEnd(n, g, outcome)
    {
      TrySpends(t, n, g, h, b);
    }
    RunInduction(t, n, g, Start(n), (h, b) => Spent(n, g, h, b), outcome => SpentAtEnd(n, g, outcome));
  }

  /**
   A syllable of at most n letters. A failed attempt is repeated with the number of carried units
   it began with, but with whatever pair it left behind.
   */
  function NextSyllable(t: Alphabet, n: nat, g: Gen): (r: SyllableResult)
    ensures r.Syllable? ==> !Misplaced(t, r.units)
    decreases |g.draws|
  {
    RunSpends(t, n, g);
    match Run(t, n, g, Start(n))
    case Exhausted => OutOfDraws
    case GaveUp(h) => NextSyllable(t, n, h.(saved := g.saved))
    case Closed(units, h) =>
      if Misplaced(t, units) then NextSyllable(t, n, h.(saved := g.saved)) else Syllable(units, h)
  }

  lemma ClosedIsNext(t: Alphabet, n: nat, g: Gen, units: seq<UnitId>, h: Gen)
    requires Run(t, n, g, Start(n)) == Closed(units, h) && !Misplaced(t, units)
    ensures NextSyllable(t, n, g) == Syllable(units, h)
  {
    hide Run, Misplaced;
  }

  predicate MayFollow(t: Alphabet, units: seq<UnitId>, i: nat)
    requires 1 <= i < |units|
  {
    IllegalPair !in t.pair(units[i - 1], units[i])
  }

  /** No forbidden neighbours, no three consonants in a row, no three vowels unless y leads them. */
  predicate Pronounceable(t: Alphabet, units: seq<UnitId>)
  {
    && (forall i :: 1 <= i < |units| ==> MayFollow(t, units, i))
    && (forall i :: 2 <= i < |units| ==>
          && !ThreeConsonants(t, units, i)
          && (ThreeVowels(t, units, i) ==> t.IsAlternate(units[i - 2])))
  }

  /** A vowel other than an initial y. */
  predicate HasProperVowel(t: Alphabet, units: seq<UnitId>)
  {
    exists i :: 0 <= i < |units| && t.IsVowel(units[i]) && !(i == 0 && t.IsAlternate(units[0]))
  }

  /** The only vowel comes last and may not be split off there. */
  predicate FinalSplit(t: Alphabet, units: seq<UnitId>)
    requires units != []
  {
    Vowels(t, units) == 1 && t.IsUnsplit(units[|units| - 1])
  }

  /** All syllables in a row. */
  function Join(syllables: seq<seq<UnitId>>): seq<UnitId>
  {
    if syllables == [] then [] else Join(syllables[..|syllables| - 1]) + syllables[|syllables| - 1]
  }

  /** Whether a word of length letters takes the syllable next after the given ones. */
  predicate Takes(t: Alphabet, length: nat, syllables: seq<seq<UnitId>>, next: seq<UnitId>)
  {
    && Pronounceable(t, Join(syllables) + next)
    && (syllables == [] ==> HasProperVowel(t, next))
    && (next != [] && |t.Spell(Join(syllables) + next)| == length ==> !FinalSplit(t, next))
  }

  /** The accepted syllables after one more was generated. */
  function Grow(t: Alphabet, length: nat, syllables: seq<seq<UnitId>>, next: seq<UnitId>): seq<seq<UnitId>>
  {
    if Takes(t, length, syllables, next) then syllables + [next] else syllables
  }

  /** How many letters are still missing. */
  function Missing(t: Alphabet, length: nat, syllables: seq<seq<UnitId>>): int
  {
    length - |t.Spell(Join(syllables))|
  }

  /** A word of length letters, from the syllables it has already got. */
  function Extend(t: Alphabet, length: nat, g: Gen, syllables: seq<seq<UnitId>>, tries: nat): WordResult
    requires tries <= TryLimit(length)
    decreases TryLimit(length) - tries
  {
    if Missing(t, length, syllables) <= 0 then Word(syllables, g)
    else
      match NextSyllable(t, Missing(t, length, syllables), g)
      case OutOfDraws => NoDraws
      case Syllable(units, h) =>
        if tries == TryLimit(length) then TooManyTries(h)
        else Extend(t, length, h, Grow(t, length, syllables, units), tries + 1)
  }

  lemma ExtendUnfolds(t: Alphabet, length: nat, g: Gen, syllables: seq<seq<UnitId>>, tries: nat)
    requires tries <= TryLimit(length)
    ensures Extend(t, length, g, syllables, tries) ==
            if Missing(t, length, syllables) <= 0 then Word(syllables, g)
            else
              match NextSyllable(t, Missing(t, length, syllables), g)
              case OutOfDraws => NoDraws
              case Syllable(units, h) =>
                if tries == TryLimit(length) then TooManyTries(h)
                else Extend(t, length, h, Grow(t, length, syllables, units), tries + 1)
  {
    hide NextSyllable, Missing, Grow;
  }

  /** What holds of the accepted syllables before every call for another one, holds at the end. */
  lemma {:induction false} WordInduction(t: Alphabet, length: nat, g: Gen, syllables: seq<seq<UnitId>>, tries: nat,
                                         inv: (Gen, seq<seq<UnitId>>) -> bool)
    requires tries <= TryLimit(length) && inv(g, syllables)
    requires forall h: Gen, s: seq<seq<UnitId>> :: inv(h, s) && Missing(t, length, s) > 0 ==>
               var r := NextSyllable(t, Missing(t, length, s), h);
               r.Syllable? ==> inv(r.g, Grow(t, length, s, r.units))
    ensures var r := Extend(t, length, g, syllables, tries);
            r.Word? ==> inv(r.g, r.syllables) && Missing(t, length, r.syllables) <= 0
    decreases TryLimit(length) - tries
  {
    hide *;
    ExtendUnfolds(t, length, g, syllables, tries);
    if Missing(t, length, syllables) > 0 {
      var r := NextSyllable(t, Missing(t, length, syllables), g);
      if r.Syllable? && tries < TryLimit(length) {
        WordInduction(t, length, r.g, Grow(t, length, syllables, r.units), tries + 1, inv);
      }
    }
  }
}
