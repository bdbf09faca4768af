/**
 The name generator itself: generator state updated in place, unit arrays, nested retry loops.
 Every method is proved to compute what Syllables says.
 */
module NameGen {
  import opened Phonology
  import opened Syllables
  import opened SyllableLaws
  import opened SyllablePairs
  import ApgTables

  /** The random source: a finite supply of raw draws. */
  class Rand {
    var draws: seq<nat>

    constructor (draws: seq<nat>)
      ensures this.draws == draws
    {
      this.draws := draws;
    }

    method Next() returns (ok: bool, draw: nat)
      modifies this
      ensures ok == (old(draws) != [])
      ensures ok ==> draw == old(draws)[0] && draws == old(draws)[1..]
      ensures !ok ==> draws == old(draws)
    {
      ok, draw := draws != [], 0;
      if ok {
        draw := draws[0];
        draws := draws[1..];
      }
    }
  }

  class GeneratorState {
    const t: Alphabet
    const rnd: Rand
    var savedUnit: nat
    var savedPair: (UnitId, UnitId)

    ghost function Abs(): Gen
      reads this, rnd
    {
      Gen(savedUnit, savedPair.0, savedPair.1, rnd.draws)
    }

    constructor (t: Alphabet, rnd: Rand)
      ensures this.t == t && this.rnd == rnd
      ensures Abs() == NewGen(rnd.draws)
    {
      this.t := t;
      this.rnd := rnd;
      savedUnit := 0;
      savedPair := (0, 0);
    }

    /**
     The rules for chosenUnit after the first currentUnit units, lengthLeft letters remaining after
     it. A carry is recorded in the saved unit and pair.
     */
    method Examine(units: seq<UnitId>, currentUnit: nat, vowelCount: nat, lengthLeft: int, chosenUnit: UnitId)
      returns (ruleBroken: bool, wantAnotherUnit: bool, wantVowel: bool)
      requires currentUnit <= |units| && savedUnit == 0
      modifies `savedUnit, `savedPair
      ensures var v := Judge(t, units[..currentUnit], vowelCount, lengthLeft, chosenUnit);
              && ruleBroken == v.Reject?
              && wantAnotherUnit == (v == Reject || v == Accept(true))
              && Abs() == Carry(old(Abs()), units[..currentUnit], chosenUnit, v)
      ensures wantVowel ==> !ruleBroken
    {
      ruleBroken, wantAnotherUnit, wantVowel := lengthLeft < 0, true, false;
      if currentUnit == 0 {
        if t.CannotBegin(chosenUnit) {
          ruleBroken := true;
        } else if lengthLeft == 0 {
          if t.IsVowel(chosenUnit) {
            wantAnotherUnit := false;
          } else {
            ruleBroken := true;
          }
        }
      } else {
        var lastUnit := units[currentUnit - 1];
        var flags := t.pair(lastUnit, chosenUnit);
        if || IllegalPair in flags
           || (Break in flags && vowelCount == 0)
           || (End in flags && vowelCount == 0 && !t.IsVowel(chosenUnit))
        {
          ruleBroken := true;
        }
        if currentUnit == 1 {
          if NotBegin in flags {
            ruleBroken := true;
          }
        } else {
          var flagsBefore := t.pair(units[currentUnit - 2], lastUnit);
          if || (currentUnit == 2 && Begin in flags && t.IsAlternate(units[0]))
             || (NotEnd in flags && lengthLeft == 0)
             || (Break in flags && NotEnd in flagsBefore)
             || (Prefix in flags && !t.IsVowel(units[currentUnit - 2]))
          {
            ruleBroken := true;
          }
          assert ruleBroken ==
                 (lengthLeft < 0 || Forbidden(t, units[..currentUnit], vowelCount, lengthLeft, chosenUnit));
          if !ruleBroken && t.IsVowel(chosenUnit) && (lengthLeft > 0 || !t.IsUnsplit(lastUnit)) {
            if vowelCount > 1 && t.IsVowel(lastUnit) {
              ruleBroken := true;
            } else if vowelCount != 0 && !t.IsVowel(lastUnit) {
              if NotEnd in flagsBefore {
                ruleBroken := true;
              } else {
                savedUnit := 1;
                savedPair := (chosenUnit, savedPair.1);
                wantAnotherUnit := false;
              }
            }
          }
        }
        if !ruleBroken && wantAnotherUnit {
          if || (vowelCount != 0 && t.IsUnsplit(chosenUnit) && lengthLeft == 0 && !t.IsVowel(lastUnit))
             || End in flags
             || lengthLeft == 0
          {
            wantAnotherUnit := false;
          } else if vowelCount != 0 && lengthLeft > 0 {
            if Begin in flags && currentUnit > 1 && !(vowelCount == 1 && t.IsVowel(lastUnit)) {
              savedUnit := 2;
              savedPair := (chosenUnit, lastUnit);
              wantAnotherUnit := false;
            } else if Break in flags {
              savedUnit := 1;
              savedPair := (chosenUnit, savedPair.1);
              wantAnotherUnit := false;
            }
          } else if Suffix in flags {
            wantVowel := true;
          }
        }
      }
    }

    method RandomUnit(vowelExpected: bool) returns (ok: bool, u: UnitId)
      modifies rnd
      ensures ok == (old(rnd.draws) != [])
      ensures ok ==> && rnd.draws == old(rnd.draws)[1..]
                     && u == if vowelExpected then t.vowelNumber(old(rnd.draws)[0]) else t.number(old(rnd.draws)[0])
      ensures !ok ==> rnd.draws == old(rnd.draws)
    {
      var draw;
      ok, draw := rnd.Next();
      if vowelExpected {
        u := t.vowelNumber(draw);
      } else {
        u := t.number(draw);
      }
    }

    /** An upper-level view of the attempt under way. */
    ghost function Underneath(units: array<UnitId>, currentUnit: nat, vowelCount: nat, lengthLeft: int,
                              tries: nat): Attempt
      requires currentUnit <= units.Length
      reads units
    {
      Attempt(units[..currentUnit], vowelCount, lengthLeft, tries)
    }

    /** The next unit to try: carried over, or drawn. A carried pair puts its older unit in place. */
    method PickUnit(unitsInSyllable: array<UnitId>, currentUnit: nat, vowelCount: nat, lengthLeft: int,
                    syllable: string, wantVowel: bool, ghost tries: nat)
      returns (ok: bool, chosenUnit: UnitId, currentUnit': nat, vowelCount': nat, lengthLeft': int, syllable': string)
      requires currentUnit < unitsInSyllable.Length
      requires savedUnit != 0 ==> currentUnit == 0 && syllable == ""
      modifies `savedUnit, rnd, unitsInSyllable
      ensures currentUnit' <= unitsInSyllable.Length
      ensures var p := Pick(t, old(Abs()),
                            old(Underneath(unitsInSyllable, currentUnit, vowelCount, lengthLeft, tries)));
              && ok == p.Picked?
              && (ok ==> && Abs() == p.g
                         && (!wantVowel ==> chosenUnit == p.unit)
                         && Underneath(unitsInSyllable, currentUnit', vowelCount', lengthLeft', tries) == p.a)
      ensures syllable == old(t.Spell(unitsInSyllable[..currentUnit])) ==>
                syllable' == t.Spell(unitsInSyllable[..currentUnit'])
      ensures savedUnit == 0
    {
      ok, currentUnit', vowelCount', lengthLeft', syllable' := true, currentUnit, vowelCount, lengthLeft, syllable;
      if savedUnit != 0 {
        if savedUnit == 2 {
          unitsInSyllable[0] := savedPair.1;
          if t.IsVowel(savedPair.1) {
            vowelCount' := vowelCount + 1;
          }
          currentUnit' := currentUnit + 1;
          syllable' := t.rule(savedPair.1).code;
          lengthLeft' := lengthLeft - |syllable'|;
          t.SpellAppend([], savedPair.1);
          assert unitsInSyllable[..1] == [savedPair.1] == [] + [savedPair.1];
        }
        chosenUnit := savedPair.0;
        savedUnit := 0;
      } else {
        ok, chosenUnit := RandomUnit(wantVowel);
      }
    }

    /**
     One round of the innermost loop. The ghost results are the generator and attempt between the pick
     and the verdict, and that verdict.
     */
    method TryUnit(nameLen: nat, unitsInSyllable: array<UnitId>, currentUnit: nat, vowelCount: nat, lengthLeft: int,
                   syllable: string, wantVowel: bool, ghost tries: nat)
      returns (ok: bool, ruleBroken: bool, wantAnotherUnit: bool, wantVowel': bool, chosenUnit: UnitId,
               currentUnit': nat, vowelCount': nat, lengthLeft': int, syllable': string,
               ghost g: Gen, ghost a: Attempt, ghost v: Verdict)
      requires t.Sound() && 1 <= nameLen < unitsInSyllable.Length && currentUnit <= unitsInSyllable.Length
      requires tries <= TryLimit(nameLen) && !wantVowel
      requires Underway(t, nameLen, Abs(), Underneath(unitsInSyllable, currentUnit, vowelCount, lengthLeft, tries))
      requires syllable == t.Spell(unitsInSyllable[..currentUnit])
      modifies this, rnd, unitsInSyllable
      ensures ok ==> currentUnit' < unitsInSyllable.Length
      ensures var b := old(Underneath(unitsInSyllable, currentUnit, vowelCount, lengthLeft, tries));
              var p := Pick(t, old(Abs()), b);
              if !ok then p == NothingLeft
              else && p == Picked(g, a, chosenUnit) && v == JudgeIn(t, a, chosenUnit)
                   && Abs() == Carry(g, a.units, chosenUnit, v)
      ensures ok ==> && a.units == unitsInSyllable[..currentUnit'] && a.vowels == vowelCount'
                     && a.left == lengthLeft' + (if ruleBroken then 0 else t.Len(chosenUnit))
                     && syllable' == t.Spell(a.units)
                     && ruleBroken == v.Reject?
                     && wantAnotherUnit == (v == Reject || v == Accept(true))
                     && (wantVowel' ==> !ruleBroken)
    {
      hide Judge;
      g, a, v := Abs(), Underneath(unitsInSyllable, currentUnit, vowelCount, lengthLeft, tries), Reject;
      FitsInArray(t, nameLen, g, a);
      PickKeeps(t, nameLen, g, a);
      ruleBroken, wantAnotherUnit, wantVowel' := false, true, wantVowel;
      ok, chosenUnit, currentUnit', vowelCount', lengthLeft', syllable' :=
        PickUnit(unitsInSyllable, currentUnit, vowelCount, lengthLeft, syllable, wantVowel, tries);
      if ok {
        g, a := Abs(), Underneath(unitsInSyllable, currentUnit', vowelCount', lengthLeft', tries);
        FitsInArray(t, nameLen, g, a);
        v := JudgeIn(t, a, chosenUnit);
        lengthLeft' := lengthLeft' - t.Len(chosenUnit);
        ruleBroken, wantAnotherUnit, wantVowel' :=
          Examine(unitsInSyllable[..], currentUnit', vowelCount', lengthLeft', chosenUnit);
        if ruleBroken {
          lengthLeft' := lengthLeft' + t.Len(chosenUnit);
        }
      }
    }

    /** The innermost loop: tries units until one is accepted or the tries are used up. */
    method TryUnits(nameLen: nat, unitsInSyllable: array<UnitId>, currentUnit: nat, vowelCount: nat, lengthLeft: int,
                    syllable: string, tries: nat)
      returns (ok: bool, ruleBroken: bool, wantAnotherUnit: bool, chosenUnit: UnitId, currentUnit': nat,
               vowelCount': nat, lengthLeft': int, syllable': string, tries': nat,
               ghost g: Gen, ghost a: Attempt, ghost v: Verdict)
      requires t.Sound() && 1 <= nameLen < unitsInSyllable.Length && currentUnit <= unitsInSyllable.Length
      requires tries <= TryLimit(nameLen)
      requires Underway(t, nameLen, Abs(), Underneath(unitsInSyllable, currentUnit, vowelCount, lengthLeft, tries))
      requires syllable == t.Spell(unitsInSyllable[..currentUnit])
      modifies this, rnd, unitsInSyllable
      ensures a.tries <= TryLimit(nameLen) && (v.CarryPair? ==> a.units != [])
      ensures var before := old(Underneath(unitsInSyllable, currentUnit, vowelCount, lengthLeft, tries));
              Run(t, nameLen, old(Abs()), before) ==
              if ok then Resume(t, nameLen, Settle(t, nameLen, g, a, chosenUnit, v)) else Exhausted
      ensures ok ==> && tries < tries' == a.tries + 1 && currentUnit' < unitsInSyllable.Length
                     && a.units == unitsInSyllable[..currentUnit'] && a.vowels == vowelCount'
                     && (!ruleBroken ==> a.left == lengthLeft' + t.Len(chosenUnit))
                     && syllable' == t.Spell(a.units)
      ensures ok ==> && Underway(t, nameLen, g, a) && g.saved == 0
                     && v == JudgeIn(t, a, chosenUnit)
                     && Abs() == Carry(g, a.units, chosenUnit, v)
                     && ruleBroken == v.Reject?
                     && wantAnotherUnit == (v == Reject || v == Accept(true))
                     && (tries' <= TryLimit(nameLen) ==> !ruleBroken)
    {
      hide JudgeIn, Run, Settle, Underway, Alphabet.Sound;
      g, a, v := Abs(), Underneath(unitsInSyllable, currentUnit, vowelCount, lengthLeft, tries), Reject;
      ghost var run := Run(t, nameLen, g, a);
      var wantVowel := false;
      ruleBroken, wantAnotherUnit := false, true;
      currentUnit', vowelCount', lengthLeft', syllable', tries' := currentUnit, vowelCount, lengthLeft, syllable, tries;
      while true
        invariant !wantVowel && tries <= tries' <= TryLimit(nameLen)
        invariant currentUnit' <= unitsInSyllable.Length
        invariant g == Abs() && a == Underneath(unitsInSyllable, currentUnit', vowelCount', lengthLeft', tries')
        invariant Underway(t, nameLen, g, a)
        invariant Run(t, nameLen, g, a) == run
        invariant syllable' == t.Spell(a.units)
        decreases TryLimit(nameLen) - tries'
      {
        RunAfterPick(t, nameLen, g, a);
        ok, ruleBroken, wantAnotherUnit, wantVowel, chosenUnit, currentUnit', vowelCount', lengthLeft', syllable',
        g, a, v :=
          TryUnit(nameLen, unitsInSyllable, currentUnit', vowelCount', lengthLeft', syllable', wantVowel, tries');
        if !ok {
          a, v := a.(tries := tries'), Reject;
          return;
        }
        tries' := tries' + 1;
        if !ruleBroken || tries' > 4 * nameLen + 34 {
          break;
        }
        a := a.(tries := tries');
      }
    }

    /** The accepted unit takes its place, unless it, or it and the unit before it, is carried over. */
    method PlaceUnit(unitsInSyllable: array<UnitId>, chosenUnit: UnitId, currentUnit: nat, vowelCount: nat,
                     lengthLeft: int, syllable: string, ghost g: Gen, ghost a: Attempt, ghost v: Verdict)
      returns (vowelCount': nat, lengthLeft': int, currentUnit': int, syllable': string)
      requires currentUnit < unitsInSyllable.Length && a.units == unitsInSyllable[..currentUnit]
      requires a.vowels == vowelCount && a.left == lengthLeft + t.Len(chosenUnit) && syllable == t.Spell(a.units)
      requires v != Reject && g.saved == 0 && (v.CarryOne? ==> a.units != []) && (v.CarryPair? ==> |a.units| > 1)
      requires Abs() == Carry(g, a.units, chosenUnit, v)
      modifies unitsInSyllable
      ensures currentUnit' == currentUnit - (if v.CarryPair? then 2 else if v.CarryOne? then 1 else 0)
      ensures vowelCount' == Place(t, a, chosenUnit).vowels
      ensures lengthLeft' == lengthLeft + if v.CarryPair? then t.Len(a.units[|a.units| - 1]) else 0
      ensures unitsInSyllable[..currentUnit' + 1] ==
              match v
              case Accept(_) => Place(t, a, chosenUnit).units
              case CarryPair => a.units[..|a.units| - 1]
              case _ => a.units
      ensures syllable' == t.Spell(unitsInSyllable[..currentUnit' + 1])
    {
      hide *;
      PlaceMeans(t, a, chosenUnit);
      CarryMeans(g, a.units, chosenUnit, v, Abs());
      StateIs();
      vowelCount', lengthLeft', currentUnit', syllable' := vowelCount, lengthLeft, currentUnit, syllable;
      if t.IsVowel(chosenUnit) && (currentUnit > 0 || !t.IsAlternate(chosenUnit)) {
        vowelCount' := vowelCount + 1;
      }
      match savedUnit {
        case 0 =>
          unitsInSyllable[currentUnit] := chosenUnit;
          syllable' := syllable + t.rule(chosenUnit).code;
          t.SpellAppend(a.units, chosenUnit);
          assert unitsInSyllable[..currentUnit + 1] == a.units + [chosenUnit];
        case 1 =>
          currentUnit' := currentUnit - 1;
        case _ =>
          var lastUnit := unitsInSyllable[currentUnit - 1];
          t.SpellCut(a.units);
          syllable' := syllable[..|syllable| - t.Len(lastUnit)];
          lengthLeft' := lengthLeft + t.Len(lastUnit);
          currentUnit' := currentUnit - 2;
          assert unitsInSyllable[..currentUnit - 1] == a.units[..currentUnit - 1];
      }
    }

    lemma StateIs()
      ensures Abs().saved == savedUnit
    {
    }

    /**
     The middle loop: one attempt at a syllable of at most nameLen letters. When the rules are not
     broken the units are the first syllableLength + 1 elements of the array.
     */
    method TrySyllable(nameLen: nat, unitsInSyllable: array<UnitId>)
      returns (ok: bool, ruleBroken: bool, syllable: string, syllableLength: nat)
      requires t.Sound() && 1 <= nameLen < unitsInSyllable.Length && GoodPair(t, Abs())
      modifies this, rnd, unitsInSyllable
      ensures var r := Run(t, nameLen, old(Abs()), Start(nameLen));
              && ok == !r.Exhausted?
              && (ok ==> ruleBroken == r.GaveUp? && Abs() == r.g)
              && (ok && !ruleBroken ==> && syllableLength < unitsInSyllable.Length
                                        && unitsInSyllable[..syllableLength + 1] == r.units
                                        && syllable == t.Spell(r.units))
    {
      hide JudgeIn, Run, Resume, Settle, Underway, GoodPair, Place, Alphabet.Sound, Alphabet.Spell, Alphabet.IsVowel,
        Alphabet.IsAlternate, Alphabet.Len;
      t.SpellNothing();
      var tries := 0;
      syllable, syllableLength := "", 0;
      var vowelCount: nat, currentUnit: nat, lengthLeft: int := 0, 0, nameLen;
      var wantAnotherUnit := true;
      ghost var run := Run(t, nameLen, Abs(), Start(nameLen));
      StartsUnderway(t, nameLen, Abs());
      assert unitsInSyllable[..0] == [];
      while true
        invariant tries <= TryLimit(nameLen) && currentUnit <= unitsInSyllable.Length
        invariant var a := Underneath(unitsInSyllable, currentUnit, vowelCount, lengthLeft, tries);
                  && Underway(t, nameLen, Abs(), a)
                  && Run(t, nameLen, Abs(), a) == run
        invariant syllable == t.Spell(unitsInSyllable[..currentUnit])
        decreases TryLimit(nameLen) - tries
      {
        var chosenUnit: UnitId;
        ghost var g, a, v;
        ok, ruleBroken, wantAnotherUnit, chosenUnit, currentUnit, vowelCount, lengthLeft, syllable, tries, g, a, v :=
          TryUnits(nameLen, unitsInSyllable, currentUnit, vowelCount, lengthLeft, syllable, tries);
        if !ok {
          return;
        }
        RunAfterVerdict(t, nameLen, g, a, chosenUnit, v);
        var lastIndex: int := currentUnit;
        if tries <= 4 * nameLen + 34 {
          PlaceMeans(t, a, chosenUnit);
          vowelCount, lengthLeft, lastIndex, syllable :=
            PlaceUnit(unitsInSyllable, chosenUnit, currentUnit, vowelCount, lengthLeft, syllable, g, a, v);
        } else {
          ruleBroken := true;
        }
        syllableLength := lastIndex;
        currentUnit := lastIndex + 1;
        if tries > 4 * nameLen + 34 || !wantAnotherUnit {
          break;
        }
      }
    }

    /**
     The outer loop: a syllable of at most nameLen letters, after as many attempts as it takes. Its
     units are the first syllableLength + 1 elements of the array, the carry for the next syllable is
     in the state. Not ok when the draws run out.
     */
    method GenSyllable(nameLen: nat, unitsInSyllable: array<UnitId>)
      returns (ok: bool, syllable: string, syllableLength: nat)
      requires t.Sound() && GoodPair(t, Abs())
      requires 1 <= nameLen < unitsInSyllable.Length
      modifies this, rnd, unitsInSyllable
      ensures var r := NextSyllable(t, nameLen, old(Abs()));
              && ok == r.Syllable?
              && (ok ==> && Abs() == r.g
                         && syllableLength < unitsInSyllable.Length
                         && unitsInSyllable[..syllableLength + 1] == r.units
                         && syllable == t.Spell(r.units))
      ensures ok ==> WellPaired(t, old(savedUnit) == 2, nameLen, unitsInSyllable[..syllableLength + 1], Abs())
    {
      hide Run, Misplaced, WellPaired;
      var holdSavedUnit := savedUnit;
      ghost var g0 := Abs();
      SyllableIsWellPaired(t, nameLen, g0);
      while true
        invariant GoodPair(t, Abs().(saved := holdSavedUnit))
        invariant NextSyllable(t, nameLen, Abs().(saved := holdSavedUnit)) == NextSyllable(t, nameLen, g0)
        decreases |rnd.draws|
      {
        savedUnit := holdSavedUnit;
        RunSpends(t, nameLen, Abs());
        RunIsGood(t, nameLen, Abs());
        var ruleBroken;
        ok, ruleBroken, syllable, syllableLength := TrySyllable(nameLen, unitsInSyllable);
        if !ok {
          return;
        }
        if !ruleBroken {
          var misplaced := IllegalPlacement(t, unitsInSyllable[..], syllableLength);
          if misplaced {
            MisplacedNeedsThree(t, unitsInSyllable[..syllableLength + 1]);
          } else {
            break;
          }
        }
      }
    }
  }

  /** The attempt with a unit placed, part by part. */
  lemma PlaceMeans(t: Alphabet, a: Attempt, u: UnitId)
    ensures var b := Place(t, a, u);
            && b.units == a.units + [u] && b.left == a.left - t.Len(u) && b.tries == a.tries
            && b.vowels == a.vowels + if t.IsVowel(u) && (|a.units| > 0 || !t.IsAlternate(u)) then 1 else 0
  {
  }

  /** What the number of saved units says about the verdict. */
  lemma CarryMeans(g: Gen, units: seq<UnitId>, u: UnitId, v: Verdict, h: Gen)
    requires v != Reject && g.saved == 0 && (v.CarryPair? ==> units != []) && h == Carry(g, units, u, v)
    ensures h.saved == match v
                       case CarryOne => 1
                       case CarryPair => 2
                       case _ => 0
  {
  }

  /** The placement rules, for the units up to and including index nameLen. */
  method IllegalPlacement(t: Alphabet, units: seq<UnitId>, nameLen: nat) returns (illegal: bool)
    requires nameLen < |units|
    ensures illegal == Misplaced(t, units[..nameLen + 1])
  {
    ghost var s := units[..nameLen + 1];
    var vowelCount := 0;
    var i := 0;
    while i <= nameLen
      invariant i <= nameLen + 1
      invariant vowelCount > 0 <==> exists j :: 0 <= j < i && CountsAsVowel(t, s, j)
      invariant forall k :: 2 <= k < i ==> !MisplacedAt(t, s, k)
    {
      if i >= 1 {
        var cond1 := && !t.IsVowel(units[i - 1])
                     && t.IsVowel(units[i])
                     && !(t.IsUnsplit(units[i]) && i == nameLen)
                     && vowelCount != 0;
        var cond2 := false;
        if i >= 2 {
          var isCons2, isCons1, isCons0 := !t.IsVowel(units[i - 2]), !t.IsVowel(units[i - 1]), !t.IsVowel(units[i]);
          var isVowel2 := t.IsVowel(units[i - 2]) && !(t.IsAlternate(units[0]) && i == 2);
          var isVowel1, isVowel0 := t.IsVowel(units[i - 1]), t.IsVowel(units[i]);
          if (isCons2 && isCons1 && isCons0) || (isVowel2 && isVowel1 && isVowel0) {
            cond2 := true;
          }
        }
        if i >= 2 {
          assert MisplacedAt(t, s, i) == (cond1 || cond2);
        } else {
          assert !cond1;
        }
        if cond1 || cond2 {
          return true;
        }
      }
      if t.IsVowel(units[i]) && !(t.IsAlternate(units[0]) && i == 0 && nameLen != 0) {
        assert CountsAsVowel(t, s, i);
        vowelCount := vowelCount + 1;
      }
      i := i + 1;
    }
    return false;
  }

  /** The rules for a whole word, for its first wordSize units. */
  method ImproperWord(t: Alphabet, units: seq<UnitId>, wordSize: nat) returns (improper: bool)
    requires wordSize <= |units|
    ensures improper == !Pronounceable(t, units[..wordSize])
  {
    ghost var s := units[..wordSize];
    var i := 0;
    while i < wordSize
      invariant i <= wordSize
      invariant forall k :: 1 <= k < i ==> MayFollow(t, s, k)
      invariant forall k :: 2 <= k < i ==>
                  !ThreeConsonants(t, s, k) && (ThreeVowels(t, s, k) ==> t.IsAlternate(s[k - 2]))
    {
      if i != 0 {
        var u1, u2 := units[i - 1], units[i];
        if IllegalPair in t.pair(u1, u2) {
          assert !MayFollow(t, s, i);
          return true;
        }
      }
      if i >= 2 {
        var isVowel2 := t.IsVowel(units[i - 2]) && !t.IsAlternate(units[i - 2]);
        var isVowel1, isVowel0 := t.IsVowel(units[i - 1]), t.IsVowel(units[i]);
        var isCons2, isCons1, isCons0 := !t.IsVowel(units[i - 2]), !t.IsVowel(units[i - 1]), !t.IsVowel(units[i]);
        if (isVowel2 && isVowel1 && isVowel0) || (isCons2 && isCons1 && isCons0) {
          assert ThreeConsonants(t, s, i) || (ThreeVowels(t, s, i) && !t.IsAlternate(s[i - 2]));
          return true;
        }
      }
      i := i + 1;
    }
    return false;
  }

  /** No vowel but an initial y among the units up to and including index unitSize. */
  method HaveInitialY(t: Alphabet, units: seq<UnitId>, unitSize: nat) returns (initialY: bool)
    requires unitSize < |units|
    ensures initialY == !HasProperVowel(t, units[..unitSize + 1])
  {
    ghost var s := units[..unitSize + 1];
    var vowelCount, normalVowelCount := 0, 0;
    var i := 0;
    while i <= unitSize
      invariant i <= unitSize + 1
      invariant 0 <= normalVowelCount <= vowelCount
      invariant normalVowelCount == 0 ==> vowelCount <= if i == 0 then 0 else 1
      invariant normalVowelCount > 0 <==>
                exists k :: 0 <= k < i && t.IsVowel(s[k]) && !(k == 0 && t.IsAlternate(s[0]))
    {
      if t.IsVowel(units[i]) {
        vowelCount := vowelCount + 1;
        if !t.IsAlternate(units[i]) || i != 0 {
          assert t.IsVowel(s[i]);
          normalVowelCount := normalVowelCount + 1;
        }
      }
      i := i + 1;
    }
    return vowelCount <= 1 && normalVowelCount == 0;
  }

  /** A single vowel, at index unitSize, that may not be split off. */
  method HaveFinalSplit(t: Alphabet, units: seq<UnitId>, unitSize: nat) returns (split: bool)
    requires unitSize < |units|
    ensures split == FinalSplit(t, units[..unitSize + 1])
  {
    var vowelCount := 0;
    var i := 0;
    while i <= unitSize
      invariant i <= unitSize + 1
      invariant vowelCount == Vowels(t, units[..i])
    {
      VowelsAppend(t, units[..i], units[i]);
      assert units[..i + 1] == units[..i] + [units[i]];
      if t.IsVowel(units[i]) {
        vowelCount := vowelCount + 1;
      }
      i := i + 1;
    }
    return vowelCount == 1 && t.IsUnsplit(units[unitSize]);
  }

  datatype NameResult = Name(word: string) | InvalidLength | MaxTriesReached | OutOfRandom

  /** Copies a syllable behind the units of the word. The bound is checked, but never met. */
  method CopyUnits(wordUnits: array<UnitId>, wordSize: nat, syllableUnits: array<UnitId>, syllableSize: nat)
    requires wordUnits != syllableUnits && syllableSize < syllableUnits.Length
    requires wordSize + syllableSize < wordUnits.Length
    modifies wordUnits
    ensures wordUnits[..wordSize + syllableSize + 1] == old(wordUnits[..wordSize]) + syllableUnits[..syllableSize + 1]
  {
    var wordPlace := 0;
    while wordPlace <= syllableSize
      invariant wordPlace <= syllableSize + 1
      invariant wordUnits[..wordSize] == old(wordUnits[..wordSize])
      invariant wordUnits[wordSize..wordSize + wordPlace] == syllableUnits[..wordPlace]
    {
      assert wordSize + wordPlace < wordUnits.Length;
      if wordSize + wordPlace < wordUnits.Length {
        wordUnits[wordSize + wordPlace] := syllableUnits[wordPlace];
      }
      wordPlace := wordPlace + 1;
    }
    assert wordUnits[..wordSize + syllableSize + 1] ==
           wordUnits[..wordSize] + wordUnits[wordSize..wordSize + wordPlace];
  }

  /** The three tests on a new syllable, which comes last in units. */
  method Refuses(t: Alphabet, length: nat, units: seq<UnitId>, next: seq<UnitId>, wordLength: nat, syllableLength: nat,
                 ghost syllables: seq<seq<UnitId>>, ghost g: Gen)
    returns (refused: bool)
    requires t.Sound() && next != [] && GoodWordSoFar(t, length, syllables, g)
    requires units == Join(syllables) + next
    requires wordLength == |t.Spell(Join(syllables))| && syllableLength == |t.Spell(next)|
    ensures Grow(t, length, syllables, next) == if refused then syllables else syllables + [next]
  {
    hide *;
    var improper := ImproperWord(t, units, |units|);
    var initialY := HaveInitialY(t, next, |next| - 1);
    var finalSplit := HaveFinalSplit(t, next, |next| - 1);
    GrowMeans(t, length, syllables, g, next);
    assert units[..|units|] == units && next[..|next| - 1 + 1] == next;
    return improper || (wordLength == 0 && initialY) || (wordLength + syllableLength == length && finalSplit);
  }

  /** One round of GenWord: a syllable is generated and taken into the word or rejected. */
  method AddSyllable(state: GeneratorState, length: nat, wordUnits: array<UnitId>, syllableUnits: array<UnitId>,
                     word: string, wordSize: nat, ghost syllables: seq<seq<UnitId>>)
    returns (ok: bool, word': string, wordSize': nat, ghost next: seq<UnitId>)
    requires state.t.Sound() && |word| < length && wordUnits != syllableUnits
    requires wordUnits.Length == syllableUnits.Length == length + 1
    requires GoodWordSoFar(state.t, length, syllables, state.Abs()) && word == state.t.Spell(Join(syllables))
    requires wordSize <= length && wordUnits[..wordSize] == Join(syllables)
    modifies state, state.rnd, wordUnits, syllableUnits
    ensures var r := NextSyllable(state.t, length - |word|, old(state.Abs()));
            && ok == r.Syllable?
            && (ok ==> next == r.units && state.Abs() == r.g)
    ensures ok ==> var more := Grow(state.t, length, syllables, next);
                   && wordSize' <= length && wordUnits[..wordSize'] == Join(more)
                   && word' == state.t.Spell(Join(more))
  {
    hide NextSyllable, Grow, Join, Alphabet.Sound, Alphabet.Spell, GoodSyllable, GoodWordSoFar, GoodPair, Misplaced,
      Pronounceable, HasProperVowel, FinalSplit;
    ghost var g, t := state.Abs(), state.t;
    var wordLength := |word|;
    RoundIsGood(t, length, g, syllables);
    word', wordSize' := word, wordSize;
    var newSyllable, syllableSize;
    ok, newSyllable, syllableSize := state.GenSyllable(length - wordLength, syllableUnits);
    if !ok {
      next := [];
      return;
    }
    next := syllableUnits[..syllableSize + 1];
    NextFits(t, length, syllables, g, next, state.Abs());
    CopyUnits(wordUnits, wordSize, syllableUnits, syllableSize);
    wordSize' := wordSize + syllableSize + 1;
    var refused := Refuses(state.t, length, wordUnits[..wordSize'], syllableUnits[..syllableSize + 1], wordLength,
                           |newSyllable|, syllables, g);
    if refused {
      wordSize' := wordSize' - (syllableSize + 1);
      assert wordUnits[..wordSize'] == Join(syllables) by {
        assert (Join(syllables) + next)[..wordSize'] == Join(syllables);
        assert wordUnits[..wordSize + syllableSize + 1][..wordSize'] == wordUnits[..wordSize'];
      }
    } else {
      word' := word + newSyllable;
    }
  }

  /** A word of length letters, syllable by syllable; some syllables are rejected. */
  method GenWord(t: Alphabet, length: nat, rnd: Rand) returns (r: NameResult)
    requires t.Sound() && length >= 1
    modifies rnd
    ensures match WordOf(t, length, old(rnd.draws))
            case Word(syllables, g) => r == Name(t.Spell(Join(syllables))) && rnd.draws == g.draws
            case TooManyTries(g) => r == MaxTriesReached && rnd.draws == g.draws
            case NoDraws => r == OutOfRandom
  {
    hide Extend, NextSyllable, Grow, Alphabet.Sound, GoodSyllable, GoodWordSoFar, GoodPair, Misplaced;
    var tries: nat, wordSize: nat := 0, 0;
    var wordUnits := new UnitId[length + 1](_ => 0);
    var syllableUnits := new UnitId[length + 1](_ => 0);
    var word := "";
    var state := new GeneratorState(t, rnd);
    ghost var g0 := state.Abs();
    ghost var syllables: seq<seq<UnitId>> := [];
    NothingIsGood(t, length, g0);
    while |word| < length
      invariant state.t == t && state.rnd == rnd && fresh(state)
      invariant tries <= TryLimit(length)
      invariant GoodWordSoFar(t, length, syllables, state.Abs())
      invariant Extend(t, length, state.Abs(), syllables, tries) == Extend(t, length, g0, [], 0)
      invariant word == t.Spell(Join(syllables))
      invariant wordSize <= length && wordUnits[..wordSize] == Join(syllables)
      decreases TryLimit(length) - tries
    {
      ExtendOnce(t, length, state.Abs(), syllables, tries);
      var ok;
      ghost var next;
      ok, word, wordSize, next := AddSyllable(state, length, wordUnits, syllableUnits, word, wordSize, syllables);
      if !ok {
        return OutOfRandom;
      }
      syllables := Grow(t, length, syllables, next);
      tries := tries + 1;
      if tries > 4 * length + 34 {
        return MaxTriesReached;
      }
    }
    ExtendDone(t, length, state.Abs(), syllables, tries);
    return Name(word);
  }

  predicate ValidLength(length: int) { 1 <= length <= 255 }

  /** The program's alphabet, a length between 1 and 255. */
  method GeneratePronounceableName(length: int, rnd: Rand) returns (r: NameResult)
    modifies rnd
    ensures r.InvalidLength? <==> !ValidLength(length)
    ensures r.InvalidLength? ==> rnd.draws == old(rnd.draws)
    ensures ValidLength(length) ==>
              match WordOf(ApgTables.APG, length, old(rnd.draws))
              case Word(syllables, g) => r == Name(ApgTables.APG.Spell(Join(syllables))) && rnd.draws == g.draws
              case TooManyTries(g) => r == MaxTriesReached && rnd.draws == g.draws
              case NoDraws => r == OutOfRandom
    ensures r.Name? ==> |r.word| == length && IsLowerWord(r.word)
    ensures r.Name? || r.MaxTriesReached? ==> |rnd.draws| < |old(rnd.draws)|
    ensures r.MaxTriesReached? ==> |rnd.draws| + 4 * length + 34 < |old(rnd.draws)|
  {
    hide Extend, GoodAt, Pronounceable, Alphabet.Sound;
    if length <= 0 || length > 255 {
      return InvalidLength;
    }
    ApgTables.ApgIsSound();
    WordIsGood(ApgTables.APG, length, rnd.draws);
    WordConsumes(ApgTables.APG, length, rnd.draws);
    r := GenWord(ApgTables.APG, length, rnd);
  }

  /** A string of random lower-case letters, a length between 1 and 255. */
  method GenerateRandomString(length: int, rnd: Rand) returns (r: NameResult)
    modifies rnd
    ensures r.InvalidLength? <==> !ValidLength(length)
    ensures r.InvalidLength? ==> rnd.draws == old(rnd.draws)
    ensures ValidLength(length) ==> r.OutOfRandom? == (|old(rnd.draws)| < length)
    ensures r.Name? ==> && length <= |old(rnd.draws)| && rnd.draws == old(rnd.draws)[length..]
                        && |r.word| == length && IsLowerWord(r.word)
                        && forall k :: 0 <= k < length ==> r.word[k] == 'a' + (old(rnd.draws)[k] % 26) as char
    ensures !r.MaxTriesReached?
  {
    if length <= 0 || length > 255 {
      return InvalidLength;
    }
    var word := "";
    var i := 0;
    while i < length
      invariant i == |word| <= length && i <= |old(rnd.draws)|
      invariant rnd.draws == old(rnd.draws)[i..]
      invariant IsLowerWord(word)
      invariant forall k :: 0 <= k < i ==> word[k] == 'a' + (old(rnd.draws)[k] % 26) as char
    {
      var ok, draw := rnd.Next();
      if !ok {
        return OutOfRandom;
      }
      word := word + ['a' + (draw % 26) as char];
      i := i + 1;
    }
    return Name(word);
  }
}
