/**
 Which neighbours a syllable of the generator may have, why a unit is refused, and why a syllable ends:
 said of the units themselves, for all draws and all retries.
 */
module SyllablePairs {
  import opened Phonology
  import opened Syllables
  import opened SyllableLaws

  /** A vowel; an initial y only if it was carried in as the older unit of a pair. */
  predicate Counts(t: Alphabet, paired: bool, units: seq<UnitId>, j: nat)
    requires j < |units|
  {
    t.IsVowel(units[j]) && (j > 0 || paired || !t.IsAlternate(units[0]))
  }

  function Counted(t: Alphabet, paired: bool, units: seq<UnitId>): nat
  {
    if units == [] then 0
    else Counted(t, paired, units[..|units| - 1]) + if Counts(t, paired, units, |units| - 1) then 1 else 0
  }

  predicate VowelIn(t: Alphabet, paired: bool, units: seq<UnitId>)
  {
    exists j :: 0 <= j < |units| && Counts(t, paired, units, j)
  }

  /** The flags of the pair that ends at i. */
  function Flags(t: Alphabet, units: seq<UnitId>, i: nat): set<PairFlag>
    requires 1 <= i < |units|
  {
    t.pair(units[i - 1], units[i])
  }

  /** The unit at i may stand behind those before it. */
  predicate Allowed(t: Alphabet, paired: bool, units: seq<UnitId>, i: nat)
    requires 1 <= i < |units|
  {
    var f := Flags(t, units, i);
    && IllegalPair !in f
    && (Prefix in f && i >= 2 ==> t.IsVowel(units[i - 2]))
    && (NotBegin in f ==> i >= 2)
    && (Begin in f && i == 2 ==> !t.IsAlternate(units[0]))
    && (Break in f ==> VowelIn(t, paired, units[..i]) && (i >= 2 ==> NotEnd !in Flags(t, units, i - 1)))
    && (End in f ==> VowelIn(t, paired, units[..i]) || t.IsVowel(units[i]))
  }

  /** The pair that ends at i does not end the syllable, neither behind it nor in front of it. */
  predicate GoesOn(t: Alphabet, paired: bool, units: seq<UnitId>, i: nat)
    requires 1 <= i < |units|
  {
    var f := Flags(t, units, i);
    End !in f && Break !in f && (Begin in f && i >= 2 ==> !VowelIn(t, paired, units[..i - 1]))
  }

  /** A vowel at i is the first one, or stands right behind the only one. */
  predicate Single(t: Alphabet, paired: bool, units: seq<UnitId>, i: nat)
    requires 1 <= i < |units|
  {
    i >= 2 && t.IsVowel(units[i]) ==> Counted(t, paired, units[..i]) <= if t.IsVowel(units[i - 1]) then 1 else 0
  }

  predicate CleanAt(t: Alphabet, paired: bool, units: seq<UnitId>, i: nat)
    requires 1 <= i < |units|
  {
    Allowed(t, paired, units, i) && GoesOn(t, paired, units, i) && Single(t, paired, units, i)
  }

  /** Holds before every try of a unit. */
  predicate Clean(t: Alphabet, paired: bool, g: Gen, a: Attempt)
  {
    && (g.saved == 2 <==> paired && a.units == [])
    && a.vowels == Counted(t, paired, a.units)
    && forall i :: 1 <= i < |a.units| ==> CleanAt(t, paired, a.units, i)
  }

  /** Why a syllable of at most n letters ended where it did, with this carry. */
  predicate EndsFor(t: Alphabet, paired: bool, n: nat, units: seq<UnitId>, g: Gen)
    requires units != []
  {
    var c := |units|;
    var last := units[c - 1];
    match g.saved
    case 0 =>
      |t.Spell(units)| == n || (c >= 2 && End in Flags(t, units, c - 1))
    case 1 =>
      && VowelIn(t, paired, units) && Allowed(t, paired, units + [g.first], c)
      && (Break in t.pair(last, g.first) || (t.IsVowel(g.first) && !t.IsVowel(last)))
    case _ =>
      && VowelIn(t, paired, units) && Begin in t.pair(g.second, g.first)
      && Allowed(t, paired, units + [g.second], c) && GoesOn(t, paired, units + [g.second], c)
      && Allowed(t, paired, units + [g.second] + [g.first], c + 1)
  }

  /** The last pair of a syllable that ends without a carry: it fills the length, or is one that ends syllables. */
  predicate EndsAt(t: Alphabet, paired: bool, n: nat, units: seq<UnitId>, i: nat)
    requires 1 <= i < |units|
  {
    var full := |t.Spell(units)| == n;
    && (full || End in Flags(t, units, i))
    && (Single(t, paired, units, i) || (full && t.IsUnsplit(units[i - 1])))
    && (full && i >= 2 ==> NotEnd !in Flags(t, units, i))
  }

  /** Holds of every syllable of at most n letters that is returned. */
  predicate WellPaired(t: Alphabet, paired: bool, n: nat, units: seq<UnitId>, g: Gen)
  {
    && units != []
    && (forall i :: 1 <= i < |units| ==>
          && Allowed(t, paired, units, i)
          && (|| (GoesOn(t, paired, units, i) && Single(t, paired, units, i))
              || (i == |units| - 1 && g.saved == 0 && EndsAt(t, paired, n, units, i))))
    && EndsFor(t, paired, n, units, g)
  }

  lemma CountsBefore(t: Alphabet, paired: bool, units: seq<UnitId>, k: nat)
    requires k <= |units|
    ensures forall j :: 0 <= j < k ==> (Counts(t, paired, units[..k], j) <==> Counts(t, paired, units, j))
  {
  }

  lemma {:induction false} CountedIsVowel(t: Alphabet, paired: bool, units: seq<UnitId>)
    ensures Counted(t, paired, units) > 0 <==> VowelIn(t, paired, units)
  {
    if units != [] {
      var k := |units| - 1;
      CountedIsVowel(t, paired, units[..k]);
      CountsBefore(t, paired, units, k);
      if VowelIn(t, paired, units[..k]) {
        var j :| 0 <= j < k && Counts(t, paired, units[..k], j);
        assert Counts(t, paired, units, j);
      }
    }
  }

  lemma CountedAppend(t: Alphabet, paired: bool, units: seq<UnitId>, u: UnitId)
    ensures Counted(t, paired, units + [u]) ==
            Counted(t, paired, units) + if Counts(t, paired, units + [u], |units|) then 1 else 0
  {
    assert (units + [u])[..|units|] == units;
  }

  /** Only units up to i matter. */
  lemma SamePrefix(t: Alphabet, paired: bool, a: seq<UnitId>, b: seq<UnitId>, i: nat)
    requires 1 <= i < |a| && i < |b| && a[..i + 1] == b[..i + 1]
    ensures Allowed(t, paired, a, i) <==> Allowed(t, paired, b, i)
    ensures GoesOn(t, paired, a, i) <==> GoesOn(t, paired, b, i)
    ensures Single(t, paired, a, i) <==> Single(t, paired, b, i)
    ensures Flags(t, a, i) == Flags(t, b, i)
  {
    hide VowelIn;
    assert a[..i] == a[..i + 1][..i] == b[..i + 1][..i] == b[..i];
    assert a[..i - 1] == a[..i][..i - 1] == b[..i][..i - 1] == b[..i - 1];
    assert forall k :: 0 <= k <= i ==> a[k] == a[..i + 1][k] == b[..i + 1][k] == b[k];
  }

  /** What the nested rule tests forbid is what the units may not be, or a pair that cannot end the name. */
  lemma ForbiddenIff(t: Alphabet, paired: bool, a: Attempt, left: int, u: UnitId)
    requires a.units != [] && a.vowels == Counted(t, paired, a.units)
    ensures var c, more := |a.units|, a.units + [u];
            Forbidden(t, a.units, a.vowels, left, u) <==>
            !Allowed(t, paired, more, c) || (c >= 2 && left == 0 && NotEnd in Flags(t, more, c))
  {
    hide VowelIn;
    var more := a.units + [u];
    assert more[..|a.units|] == a.units;
    CountedIsVowel(t, paired, a.units);
  }

  /**
   A unit is refused if and only if it does not fit, may not begin, may not stand behind the units placed,
   leaves a pair at the end that cannot end a name, or is a vowel too many.
   */
  lemma RefusedIff(t: Alphabet, paired: bool, a: Attempt, u: UnitId)
    requires a.vowels == Counted(t, paired, a.units)
    ensures var c, more, full := |a.units|, a.units + [u], t.Len(u) == a.left;
            JudgeIn(t, a, u).Reject? <==>
            || t.Len(u) > a.left
            || (c == 0 && (t.CannotBegin(u) || (full && !t.IsVowel(u))))
            || (c >= 1 && !Allowed(t, paired, more, c))
            || (c >= 2 && full && NotEnd in Flags(t, more, c))
            || (&& c >= 2 && t.IsVowel(u) && !(full && t.IsUnsplit(a.units[c - 1]))
                && if t.IsVowel(a.units[c - 1]) then a.vowels >= 2
                   else a.vowels >= 1 && NotEnd in Flags(t, a.units, c - 1))
  {
    hide Allowed, Counted, Forbidden;
    if a.units != [] {
      ForbiddenIff(t, paired, a, a.left - t.Len(u), u);
    }
  }

  lemma FrontIsClean(t: Alphabet, paired: bool, units: seq<UnitId>, more: seq<UnitId>)
    requires units <= more && forall i :: 1 <= i < |units| ==> CleanAt(t, paired, units, i)
    ensures forall i :: 1 <= i < |units| ==> CleanAt(t, paired, more, i)
  {
    hide Allowed, GoesOn, Single;
    forall i | 1 <= i < |units|
      ensures CleanAt(t, paired, more, i)
    {
      assert CleanAt(t, paired, units, i);
      SamePrefix(t, paired, units, more, i);
    }
  }

  lemma PickIsClean(t: Alphabet, paired: bool, g: Gen, a: Attempt)
    requires Clean(t, paired, g, a) && (g.saved != 0 ==> a.units == [])
    ensures var p := Pick(t, g, a);
            p.Picked? ==> Clean(t, paired, p.g, p.a)
  {
    if g.saved == 2 {
      CountedAppend(t, paired, [], g.second);
      assert [] + [g.second] == [g.second];
    }
  }

  /** A unit that is accepted, with more to come, continues the syllable as it should. */
  lemma NextIsClean(t: Alphabet, paired: bool, g: Gen, a: Attempt, u: UnitId)
    requires Clean(t, paired, g, a) && g.saved == 0 && a.units != []
    requires !JudgeIn(t, a, u).Reject?
    ensures var c, more := |a.units|, a.units + [u];
            && Allowed(t, paired, more, c)
            && (JudgeIn(t, a, u) == Accept(true) ==> GoesOn(t, paired, more, c) && Single(t, paired, more, c))
            && (JudgeIn(t, a, u) == Accept(false) ==>
                  && (t.Len(u) == a.left || End in Flags(t, more, c))
                  && (Single(t, paired, more, c) || (t.Len(u) == a.left && t.IsUnsplit(a.units[c - 1])))
                  && (c >= 2 && t.Len(u) == a.left ==> NotEnd !in Flags(t, more, c)))
            && (JudgeIn(t, a, u).CarryOne? ==>
                  && VowelIn(t, paired, a.units)
                  && (Break in Flags(t, more, c) || (t.IsVowel(u) && !t.IsVowel(a.units[c - 1]))))
            && (JudgeIn(t, a, u).CarryPair? ==> VowelIn(t, paired, a.units[..c - 1]) && Begin in Flags(t, more, c))
  {
    hide Allowed, Forbidden;
    var c, more := |a.units|, a.units + [u];
    RefusedIff(t, paired, a, u);
    assert more[..c] == a.units && more[..c - 1] == a.units[..c - 1];
    CountedIsVowel(t, paired, a.units);
    CountedIsVowel(t, paired, a.units[..c - 1]);
    AllowedBreak(t, paired, more, c);
  }

  lemma AllowedBreak(t: Alphabet, paired: bool, units: seq<UnitId>, i: nat)
    requires 1 <= i < |units| && Allowed(t, paired, units, i)
    ensures Break in Flags(t, units, i) ==> VowelIn(t, paired, units[..i])
  {
  }

  predicate CleanOutcome(t: Alphabet, paired: bool, n: nat, outcome: Outcome)
  {
    outcome.Closed? ==> WellPaired(t, paired, n, outcome.units, outcome.g)
  }

  /** An accepted unit, in its place. */
  lemma PlacedIsClean(t: Alphabet, paired: bool, n: nat, g: Gen, a: Attempt, u: UnitId)
    requires Clean(t, paired, g, a) && g.saved == 0 && |t.Spell(a.units)| + a.left == n
    requires JudgeIn(t, a, u).Accept?
    ensures var b := Place(t, a, u);
            if JudgeIn(t, a, u).more then Clean(t, paired, g, b) else WellPaired(t, paired, n, b.units, g)
  {
    hide Allowed, GoesOn, Single, Forbidden, Counted, Judge;
    var c, more := |a.units|, a.units + [u];
    t.SpellAppend(a.units, u);
    CountedAppend(t, paired, a.units, u);
    FrontIsClean(t, paired, a.units, more);
    if c > 0 {
      NextIsClean(t, paired, g, a, u);
      if JudgeIn(t, a, u).more {
        assert CleanAt(t, paired, more, c);
      } else {
        assert EndsAt(t, paired, n, more, c);
        assert g.saved == 0;
        EndsLast(t, paired, n, more, g);
      }
    } else {
      FirstAccepted(t, a, u);
    }
  }

  lemma FirstAccepted(t: Alphabet, a: Attempt, u: UnitId)
    requires a.units == [] && JudgeIn(t, a, u).Accept?
    ensures !JudgeIn(t, a, u).more ==> t.Len(u) == a.left
  {
  }

  lemma EndsLast(t: Alphabet, paired: bool, n: nat, units: seq<UnitId>, g: Gen)
    requires |units| >= 2 && g.saved == 0 && Allowed(t, paired, units, |units| - 1)
    requires forall i :: 1 <= i < |units| - 1 ==> CleanAt(t, paired, units, i)
    requires EndsAt(t, paired, n, units, |units| - 1)
    ensures WellPaired(t, paired, n, units, g)
  {
    hide Allowed, GoesOn, Single;
    forall i | 1 <= i < |units|
      ensures Allowed(t, paired, units, i)
      ensures || (GoesOn(t, paired, units, i) && Single(t, paired, units, i))
              || (i == |units| - 1 && EndsAt(t, paired, n, units, i))
    {
      assert i < |units| - 1 ==> CleanAt(t, paired, units, i);
    }
  }

  predicate AllClean(t: Alphabet, paired: bool, units: seq<UnitId>)
  {
    forall i :: 1 <= i < |units| ==> CleanAt(t, paired, units, i)
  }

  lemma CleanUpTo(t: Alphabet, paired: bool, units: seq<UnitId>, k: nat)
    requires k <= |units| && AllClean(t, paired, units)
    ensures AllClean(t, paired, units[..k])
  {
    hide Allowed, GoesOn, Single;
    forall i | 1 <= i < k
      ensures CleanAt(t, paired, units[..k], i)
    {
      assert CleanAt(t, paired, units, i);
      assert units[..k][..i + 1] == units[..i + 1];
      SamePrefix(t, paired, units[..k], units, i);
    }
  }

  /** A syllable that ends in front of a unit. */
  lemma CarriesOne(t: Alphabet, paired: bool, n: nat, units: seq<UnitId>, g: Gen)
    requires units != [] && AllClean(t, paired, units) && g.saved == 1 && VowelIn(t, paired, units)
    requires var f := Flags(t, units + [g.first], |units|);
             Break in f || (t.IsVowel(g.first) && !t.IsVowel(units[|units| - 1]))
    requires Allowed(t, paired, units + [g.first], |units|)
    ensures WellPaired(t, paired, n, units, g)
  {
    hide Allowed, GoesOn, Single, VowelIn;
    forall i | 1 <= i < |units|
      ensures Allowed(t, paired, units, i) && GoesOn(t, paired, units, i) && Single(t, paired, units, i)
    {
      assert CleanAt(t, paired, units, i);
    }
  }

  /** A syllable that ends in front of a pair. */
  lemma CarriesPair(t: Alphabet, paired: bool, n: nat, units: seq<UnitId>, g: Gen)
    requires units != [] && AllClean(t, paired, units + [g.second]) && g.saved == 2 && VowelIn(t, paired, units)
    requires var more := units + [g.second] + [g.first];
             Allowed(t, paired, more, |units| + 1) && Begin in Flags(t, more, |units| + 1)
    ensures WellPaired(t, paired, n, units, g)
  {
    hide Allowed, GoesOn, Single, VowelIn;
    var more := units + [g.second];
    CleanUpTo(t, paired, more, |units|);
    assert more[..|units|] == units;
    assert CleanAt(t, paired, more, |units|);
    forall i | 1 <= i < |units|
      ensures Allowed(t, paired, units, i) && GoesOn(t, paired, units, i) && Single(t, paired, units, i)
    {
      assert CleanAt(t, paired, units, i);
    }
  }

  lemma CarriedIsClean(t: Alphabet, paired: bool, n: nat, g: Gen, a: Attempt, u: UnitId)
    requires Clean(t, paired, g, a) && g.saved == 0
    requires var v := JudgeIn(t, a, u);
             v.CarryOne? || v.CarryPair?
    ensures var v := JudgeIn(t, a, u);
            var units := if v.CarryOne? then a.units else a.units[..|a.units| - 1];
            WellPaired(t, paired, n, units, Carry(g, a.units, u, v))
  {
    hide Allowed, GoesOn, Single, Judge, Counted, VowelIn, CleanAt;
    var c, h := |a.units|, Carry(g, a.units, u, JudgeIn(t, a, u));
    NextIsClean(t, paired, g, a, u);
    if JudgeIn(t, a, u).CarryOne? {
      CarriesOne(t, paired, n, a.units, h);
    } else {
      var front, last := a.units[..c - 1], a.units[c - 1];
      assert front + [last] == a.units;
      CarriesPair(t, paired, n, front, h);
    }
  }

  lemma TryIsClean(t: Alphabet, paired: bool, n: nat, g: Gen, a: Attempt)
    requires t.Sound() && Underway(t, n, g, a) && Clean(t, paired, g, a) && a.tries <= TryLimit(n)
    ensures match Try(t, n, g, a)
            case Again(h, b) => Underway(t, n, h, b) && Clean(t, paired, h, b)
            case Ended(outcome) => CleanOutcome(t, paired, n, outcome)
  {
    hide Judge, Alphabet.Sound, WellPaired, Counted, CleanAt;
    TryKeeps(t, n, g, a);
    PickKeeps(t, n, g, a);
    PickIsClean(t, paired, g, a);
    var p := Pick(t, g, a);
    if p.Picked? {
      var v := JudgeIn(t, p.a, p.unit);
      if v.Accept? {
        PlacedIsClean(t, paired, n, p.g, p.a, p.unit);
      } else if !v.Reject? {
        CarriedIsClean(t, paired, n, p.g, p.a, p.unit);
      }
    }
  }

  lemma StartsClean(t: Alphabet, n: nat, g: Gen)
    ensures Clean(t, g.saved == 2, g, Start(n))
  {
  }

  /** An attempt closes only on well paired units. */
  lemma RunIsClean(t: Alphabet, n: nat, g: Gen)
    requires t.Sound() && GoodPair(t, g)
    ensures CleanOutcome(t, g.saved == 2, n, Run(t, n, g, Start(n)))
  {
    hide Underway, Clean, Alphabet.Sound, CleanOutcome, Try, Run;
    var paired := g.saved == 2;
    StartsUnderway(t, n, g);
    StartsClean(t, n, g);
    forall h: Gen, b: Attempt | b.tries <= TryLimit(n) && Underway(t, n, h, b) && Clean(t, paired, h, b)
      ensures match Try(t, n, h, b)
              case Again(h', b') => Underway(t, n, h', b') && Clean(t, paired, h', b')
              case Ended(outcome) => CleanOutcome(t, paired, n, outcome)
    {
      TryIsClean(t, paired, n, h, b);
    }
    RunInduction(t, n, g, Start(n), (h, b) => Underway(t, n, h, b) && Clean(t, paired, h, b),
                 outcome => CleanOutcome(t, paired, n, outcome));
  }

  /**
   Every syllable returned, after any number of retries: which pairs it may have inside, which one it may end
   on, and what the units carried out of it are.
   */
  lemma {:induction false} SyllableIsWellPaired(t: Alphabet, n: nat, g: Gen)
    requires t.Sound() && GoodPair(t, g)
    ensures var r := NextSyllable(t, n, g);
            r.Syllable? ==> WellPaired(t, g.saved == 2, n, r.units, r.g)
    decreases |g.draws|
  {
    hide WellPaired, Run;
    RunIsClean(t, n, g);
    RunIsGood(t, n, g);
    RunSpends(t, n, g);
    var r := Run(t, n, g, Start(n));
    if r.GaveUp? || (r.Closed? && Misplaced(t, r.units)) {
      SyllableIsWellPaired(t, n, r.g.(saved := g.saved));
    }
  }

  /** The units that a carry puts into place without asking, and the attempt when its other unit is tried. */
  function CarriedIn(g: Gen): seq<UnitId> { if g.saved == 2 then [g.second] else [] }

  predicate CarriedRefused(t: Alphabet, n: nat, g: Gen)
  {
    var front := CarriedIn(g);
    JudgeIn(t, Attempt(front, Vowels(t, front), n - |t.Spell(front)|, 0), g.first).Reject?
  }

  /** The units begin with what was carried in; its last unit is left out only if it is refused. */
  predicate BeginsWithCarry(t: Alphabet, n: nat, g: Gen, units: seq<UnitId>)
  {
    var front := CarriedIn(g);
    front <= units && (|units| > |front| && units[|front|] != g.first ==> CarriedRefused(t, n, g))
  }

  /** Holds before every try of an attempt that began in g. */
  predicate LedByCarry(t: Alphabet, n: nat, g: Gen, h: Gen, b: Attempt)
  {
    if b.tries == 0 then h == g && b == Start(n)
    else
      && h.saved == 0 && BeginsWithCarry(t, n, g, b.units)
      && (|b.units| == |CarriedIn(g)| ==> CarriedRefused(t, n, g))
  }

  predicate ClosedOnCarry(t: Alphabet, n: nat, g: Gen, outcome: Outcome)
  {
    outcome.Closed? ==> BeginsWithCarry(t, n, g, outcome.units)
  }

  lemma TryFollowsCarry(t: Alphabet, n: nat, g: Gen, h: Gen, b: Attempt)
    requires g.saved != 0 && b.tries <= TryLimit(n) && LedByCarry(t, n, g, h, b)
    ensures match Try(t, n, h, b)
            case Again(h', b') => LedByCarry(t, n, g, h', b')
            case Ended(outcome) => ClosedOnCarry(t, n, g, outcome)
  {
    hide Judge, TryLimit, Alphabet.Len;
    if b.tries == 0 {
      FirstTry(t, n, g);
    }
  }

  /** The first try picks the unit carried in, behind the other one if there are two. */
  lemma FirstTry(t: Alphabet, n: nat, g: Gen)
    requires g.saved != 0
    ensures var p := Pick(t, g, Start(n));
            && p.Picked? && p.unit == g.first && p.g == g.(saved := 0)
            && p.a == Attempt(CarriedIn(g), Vowels(t, CarriedIn(g)), n - |t.Spell(CarriedIn(g))|, 0)
  {
    t.SpellNothing();
    if g.saved == 2 {
      t.SpellAppend([], g.second);
      VowelsAppend(t, [], g.second);
      assert [g.second] == [] + [g.second];
    }
  }

  /** What was carried out of one syllable opens the next, whatever becomes of the attempt later on. */
  lemma RunBeginsWithCarry(t: Alphabet, n: nat, g: Gen)
    requires g.saved != 0
    ensures var r := Run(t, n, g, Start(n));
            r.Closed? ==> BeginsWithCarry(t, n, g, r.units)
  {
    hide LedByCarry, BeginsWithCarry, ClosedOnCarry, Try, Run;
    ClosesOnCarry(t, n, g, Run(t, n, g, Start(n)));
    forall h: Gen, b: Attempt | b.tries <= TryLimit(n) && LedByCarry(t, n, g, h, b)
      ensures match Try(t, n, h, b)
              case Again(h', b') => LedByCarry(t, n, g, h', b')
              case Ended(outcome) => ClosedOnCarry(t, n, g, outcome)
    {
      TryFollowsCarry(t, n, g, h, b);
    }
    NotTriedYet(t, n, g);
    RunInduction(t, n, g, Start(n), (h, b) => LedByCarry(t, n, g, h, b),
                 outcome => ClosedOnCarry(t, n, g, outcome));
  }

  lemma ClosesOnCarry(t: Alphabet, n: nat, g: Gen, outcome: Outcome)
    ensures ClosedOnCarry(t, n, g, outcome) <==> (outcome.Closed? ==> BeginsWithCarry(t, n, g, outcome.units))
  {
  }

  lemma NotTriedYet(t: Alphabet, n: nat, g: Gen)
    ensures LedByCarry(t, n, g, g, Start(n)) && Start(n).tries <= TryLimit(n)
  {
  }
}
