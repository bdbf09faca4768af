/**
 The alphabet of the pronounceable-name generator: 34 units of one or two letters, the flags of a
 unit, and the flags of a pair of neighbouring units. Everything proved about the generator holds
 for every alphabet that is Sound; ApgTables supplies the one the program uses.
 */
module Phonology {

  /** Index of a unit in the rules table. */
  type UnitId = u: int | 0 <= u < 34

  datatype UnitFlag = NotBeginSyllable | NoFinalSplit | Vowel | AlternateVowel

  datatype PairFlag = Begin | NotBegin | Break | Prefix | IllegalPair | Suffix | End | NotEnd

  datatype Rule = Rule(code: string, flags: set<UnitFlag>)

  /**
   rule and pair are the two tables; number and vowelNumber turn the raw value of a random draw into
   a unit.
   */
  datatype Alphabet = Alphabet(rule: UnitId -> Rule,
                               pair: (UnitId, UnitId) -> set<PairFlag>,
                               number: nat -> UnitId,
                               vowelNumber: nat -> UnitId)
  {
    predicate Sound()
    {
      && (forall u: UnitId :: 1 <= |rule(u).code| <= 2 && IsLowerWord(rule(u).code))
      && (forall u: UnitId, v: UnitId :: Begin in pair(u, v) ==> NotBeginSyllable !in rule(u).flags)
      && NotBeginSyllable !in rule(0).flags
    }

    function Len(u: UnitId): nat { |rule(u).code| }

    predicate IsVowel(u: UnitId) { Vowel in rule(u).flags }

    predicate IsAlternate(u: UnitId) { AlternateVowel in rule(u).flags }

    predicate IsUnsplit(u: UnitId) { NoFinalSplit in rule(u).flags }

    predicate CannotBegin(u: UnitId) { NotBeginSyllable in rule(u).flags }

    /** The letters of a sequence of units. */
    function Spell(units: seq<UnitId>): string
    {
      if units == [] then "" else Spell(units[..|units| - 1]) + rule(units[|units| - 1]).code
    }

    lemma SpellAppend(units: seq<UnitId>, u: UnitId)
      ensures Spell(units + [u]) == Spell(units) + rule(u).code
    {
    }

    lemma SpellNothing()
      ensures Spell([]) == ""
    {
    }

    /** Without its last unit a text is shorter by the letters of that unit. */
    lemma SpellCut(units: seq<UnitId>)
      requires units != []
      ensures var last := units[|units| - 1];
              && Len(last) <= |Spell(units)|
              && Spell(units[..|units| - 1]) == Spell(units)[..|Spell(units)| - Len(last)]
    {
    }

    lemma {:induction false} SpellConcat(a: seq<UnitId>, b: seq<UnitId>)
      ensures Spell(a + b) == Spell(a) + Spell(b)
    {
      hide *;
      if b == [] {
        assert a + b == a;
        SpellNothing();
      } else {
        var front, last := b[..|b| - 1], b[|b| - 1];
        SpellConcat(a, front);
        SpellAppend(a + front, last);
        SpellAppend(front, last);
        assert front + [last] == b && a + b == (a + front) + [last];
      }
    }

    /** Every unit is at least one and at most two letters. */
    lemma {:induction false} SpellLength(units: seq<UnitId>)
      requires Sound()
      ensures |units| <= |Spell(units)| <= 2 * |units|
      ensures IsLowerWord(Spell(units))
    {
      if units != [] {
        SpellLength(units[..|units| - 1]);
      }
    }
  }

  /** Number of vowel units. */
  function Vowels(t: Alphabet, units: seq<UnitId>): nat
  {
    if units == [] then 0
    else Vowels(t, units[..|units| - 1]) + if t.IsVowel(units[|units| - 1]) then 1 else 0
  }

  predicate HasVowel(t: Alphabet, units: seq<UnitId>)
  {
    exists i :: 0 <= i < |units| && t.IsVowel(units[i])
  }

  lemma {:induction false} VowelsExist(t: Alphabet, units: seq<UnitId>)
    ensures Vowels(t, units) > 0 <==> HasVowel(t, units)
  {
    if units != [] {
      var front := units[..|units| - 1];
      VowelsExist(t, front);
      if HasVowel(t, front) {
        var i :| 0 <= i < |front| && t.IsVowel(front[i]);
        assert t.IsVowel(units[i]);
      }
    }
  }

  lemma VowelsAppend(t: Alphabet, units: seq<UnitId>, u: UnitId)
    ensures Vowels(t, units + [u]) == Vowels(t, units) + if t.IsVowel(u) then 1 else 0
  {
  }

  predicate IsLowerWord(s: string)
  {
    forall i :: 0 <= i < |s| ==> 'a' <= s[i] <= 'z'
  }
}
