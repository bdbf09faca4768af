/**
 For every length some draws make the generator succeed: a, ab, bab, and for longer words a followed
 by qua over and over, each qu being drawn one syllable early and carried into the next.
 */
module Existence {
  import opened Phonology
  import opened Syllables
  import opened SyllableLaws
  import ApgTables

  const A: UnitId := 0
  const B: UnitId := 1
  const CH: UnitId := 25
  const QU: UnitId := 32

  const DRAW_A: nat := 0
  const DRAW_B: nat := 10
  const DRAW_CH: nat := 200
  const DRAW_QU: nat := 208

  predicate Supports(t: Alphabet)
  {
    && t.Len(A) == 1 && t.Len(B) == 1 && t.Len(CH) == 2 && t.Len(QU) == 2
    && t.rule(A).flags == {Vowel} && t.rule(B).flags == {} && t.rule(CH).flags == {} && t.rule(QU).flags == {}
    && t.pair(A, B) == {} && t.pair(A, CH) == {} && t.pair(B, A) == {} && t.pair(QU, A) == {}
    && t.pair(A, QU) == {Break, NotEnd}
    && t.number(DRAW_A) == A && t.number(DRAW_B) == B && t.number(DRAW_CH) == CH && t.number(DRAW_QU) == QU
  }

  lemma ApgDraws()
    ensures |ApgTables.NUMBERS| == 210
    ensures ApgTables.NUMBERS[DRAW_A] == A && ApgTables.NUMBERS[DRAW_B] == B
    ensures ApgTables.NUMBERS[DRAW_CH] == CH && ApgTables.NUMBERS[DRAW_QU] == QU
  {
  }

  lemma ApgPairsOfA()
    ensures ApgTables.APG.pair(A, B) == {} && ApgTables.APG.pair(A, CH) == {}
    ensures ApgTables.APG.pair(A, QU) == {Break, NotEnd}
  {
  }

  lemma ApgPairsWithA()
    ensures ApgTables.APG.pair(B, A) == {} && ApgTables.APG.pair(QU, A) == {}
  {
  }

  lemma ApgRules()
    ensures ApgTables.APG.rule(A) == Rule("a", {Vowel}) && ApgTables.APG.rule(B) == Rule("b", {})
    ensures ApgTables.APG.rule(CH) == Rule("ch", {}) && ApgTables.APG.rule(QU) == Rule("qu", {})
  {
  }

  lemma ApgSupports()
    ensures Supports(ApgTables.APG)
  {
    ApgRules();
    ApgDraws();
    ApgPairsOfA();
    ApgPairsWithA();
  }

  /** The draws that finish a word of which n letters are missing, the carried qu among them. */
  function Closing(n: nat): seq<nat>
    requires n >= 3
  {
    if n == 3 then [DRAW_A]
    else if n == 4 then [DRAW_A, DRAW_B]
    else if n == 5 then [DRAW_A, DRAW_CH]
    else [DRAW_A, DRAW_QU] + Closing(n - 3)
  }

  function Last(n: nat): seq<UnitId>
  {
    if n == 4 then [QU, A, B] else if n == 5 then [QU, A, CH] else [QU, A]
  }

  /** The attempt after the carried qu, and after the a that follows it. */
  function AfterQu(n: nat): Attempt { Attempt([QU], 0, n - 2, 1) }

  function AfterQua(n: nat): Attempt { Attempt([QU, A], 1, n - 3, 2) }

  lemma TryQu(t: Alphabet, n: nat, g: Gen)
    requires Supports(t) && n >= 3
    requires g.saved == 1 && g.first == QU
    ensures Try(t, n, g, Start(n)) == Again(g.(saved := 0), AfterQu(n))
  {
    assert [] + [QU] == [QU];
  }

  lemma TryQua(t: Alphabet, n: nat, g: Gen)
    requires Supports(t) && n >= 3
    requires g.saved == 0 && g.draws != [] && g.draws[0] == DRAW_A
    ensures var h := g.(draws := g.draws[1..]);
            Try(t, n, g, AfterQu(n)) == if n > 3 then Again(h, AfterQua(n)) else Ended(Closed([QU, A], h))
  {
    assert [QU] + [A] == [QU, A];
  }

  lemma TryAfterQua(t: Alphabet, n: nat, g: Gen)
    requires Supports(t) && n > 3
    requires g.saved == 0 && g.draws != []
    requires g.draws[0] == if n == 4 then DRAW_B else if n == 5 then DRAW_CH else DRAW_QU
    ensures var h := g.(draws := g.draws[1..]);
            Try(t, n, g, AfterQua(n)) == Ended(Closed(Last(n), if n < 6 then h else h.(saved := 1, first := QU)))
  {
    var u := t.number(g.draws[0]);
    assert [QU, A] + [u] == [QU, A, u];
  }

  lemma LastIsPlaced(t: Alphabet, n: nat)
    requires Supports(t)
    ensures !Misplaced(t, Last(n))
  {
  }

  /** qu was carried in: the syllable it opens, and what is carried on. */
  lemma SyllableFromQu(t: Alphabet, n: nat, g: Gen)
    requires Supports(t) && n >= 3
    requires g.saved == 1 && g.first == QU && g.draws == Closing(n)
    ensures var r := NextSyllable(t, n, g);
            && r.Syllable? && r.units == Last(n)
            && (n >= 6 ==> r.g.saved == 1 && r.g.first == QU && r.g.draws == Closing(n - 3))
  {
    hide Supports, Try, Run, NextSyllable, Misplaced;
    var g1 := g.(saved := 0);
    TryQu(t, n, g);
    RunOnce(t, n, g, Start(n));
    TryQua(t, n, g1);
    RunOnce(t, n, g1, AfterQu(n));
    var g2 := g1.(draws := g1.draws[1..]);
    if n > 3 {
      TryAfterQua(t, n, g2);
      RunOnce(t, n, g2, AfterQua(n));
    }
    LastIsPlaced(t, n);
    var r := Run(t, n, g, Start(n));
    ClosedIsNext(t, n, g, r.units, r.g);
  }

  /** The word so far ends in an open a. */
  predicate Open(t: Alphabet, syllables: seq<seq<UnitId>>)
  {
    var w := Join(syllables);
    && syllables != [] && w != []
    && w[|w| - 1] == A
    && (|w| >= 2 ==> !t.IsVowel(w[|w| - 2]))
    && Pronounceable(t, w)
  }

  lemma SpellSmall(t: Alphabet, u: UnitId, v: UnitId, w: UnitId)
    ensures |t.Spell([u])| == t.Len(u)
    ensures |t.Spell([u, v])| == t.Len(u) + t.Len(v)
    ensures |t.Spell([u, v, w])| == t.Len(u) + t.Len(v) + t.Len(w)
  {
    t.SpellAppend([], u);
    assert [] + [u] == [u];
    t.SpellAppend([u], v);
    assert [u] + [v] == [u, v];
    t.SpellAppend([u, v], w);
    assert [u, v] + [w] == [u, v, w];
  }

  lemma StaysPronounceable(t: Alphabet, w: seq<UnitId>, next: seq<UnitId>)
    requires Supports(t) && Pronounceable(t, w)
    requires w != [] && w[|w| - 1] == A && (|w| >= 2 ==> !t.IsVowel(w[|w| - 2]))
    requires next in {[QU, A], [QU, A, B], [QU, A, CH]}
    ensures Pronounceable(t, w + next)
  {
    var s := w + next;
    forall i | 1 <= i < |s|
      ensures MayFollow(t, s, i)
    {
      if i < |w| {
        assert MayFollow(t, w, i);
      }
    }
    forall i | 2 <= i < |s|
      ensures !ThreeConsonants(t, s, i) && (ThreeVowels(t, s, i) ==> t.IsAlternate(s[i - 2]))
    {
      if i < |w| {
        assert !ThreeConsonants(t, w, i) && (ThreeVowels(t, w, i) ==> t.IsAlternate(w[i - 2]));
      }
    }
  }

  lemma AppendsQua(t: Alphabet, length: nat, syllables: seq<seq<UnitId>>)
    requires Supports(t) && Open(t, syllables)
    requires Missing(t, length, syllables) >= 3
    ensures var n := Missing(t, length, syllables);
            var more := syllables + [Last(n)];
            && Grow(t, length, syllables, Last(n)) == more
            && Missing(t, length, more) == (if n < 6 then 0 else n - 3)
            && (n >= 6 ==> Open(t, more))
  {
    var n := Missing(t, length, syllables);
    var more := syllables + [Last(n)];
    var w := Join(syllables);
    assert more[..|syllables|] == syllables;
    assert Join(more) == w + Last(n);
    t.SpellConcat(w, Last(n));
    SpellSmall(t, QU, A, if n == 4 then B else CH);
    StaysPronounceable(t, w, Last(n));
  }

  lemma {:induction false} ClosesWord(t: Alphabet, length: nat, g: Gen, syllables: seq<seq<UnitId>>, tries: nat)
    requires Supports(t) && Open(t, syllables)
    requires var n := Missing(t, length, syllables);
             && n >= 3 && tries + n <= TryLimit(length)
             && g.saved == 1 && g.first == QU && g.draws == Closing(n)
    ensures Extend(t, length, g, syllables, tries).Word?
    decreases Missing(t, length, syllables)
  {
    hide Supports, Open, Closing, Last, NextSyllable, Extend, Grow, Missing, Join;
    var n := Missing(t, length, syllables);
    SyllableFromQu(t, n, g);
    AppendsQua(t, length, syllables);
    ExtendUnfolds(t, length, g, syllables, tries);
    var s := NextSyllable(t, n, g);
    var more := syllables + [Last(n)];
    if n >= 6 {
      ClosesWord(t, length, s.g, more, tries + 1);
    } else {
      ExtendUnfolds(t, length, s.g, more, tries + 1);
    }
  }

  function Witness(length: nat): seq<nat>
    requires length >= 1
  {
    if length == 1 then [DRAW_A]
    else if length == 2 then [DRAW_A, DRAW_B]
    else if length == 3 then [DRAW_B, DRAW_A, DRAW_B]
    else [DRAW_A, DRAW_QU] + Closing(length - 1)
  }

  /** A single draw of b or a opens a word. */
  lemma TryFirst(t: Alphabet, n: nat, g: Gen)
    requires Supports(t) && n >= 1 && g.saved == 0 && g.draws != []
    requires g.draws[0] == DRAW_A || (g.draws[0] == DRAW_B && n > 1)
    ensures var h := g.(draws := g.draws[1..]);
            var u := t.number(g.draws[0]);
            Try(t, n, g, Start(n)) ==
            if n == 1 then Ended(Closed([u], h)) else Again(h, Attempt([u], if u == A then 1 else 0, n - 1, 1))
  {
    assert [] + [A] == [A] && [] + [B] == [B];
  }

  /** b closes ab and bab; qu after a is carried. */
  lemma TryAfterA(t: Alphabet, n: nat, g: Gen, a: Attempt)
    requires Supports(t) && g.saved == 0 && g.draws != [] && a.tries <= 2
    requires a.units in {[A], [B, A]} && a.vowels == 1
    requires if g.draws[0] == DRAW_B then a.left == 1 else g.draws[0] == DRAW_QU && a.left > 2 && a.units == [A]
    ensures var h := g.(draws := g.draws[1..]);
            Try(t, n, g, a) ==
            Ended(if a.left == 1 then Closed(a.units + [B], h) else Closed([A], h.(saved := 1, first := QU)))
  {
  }

  lemma TryBa(t: Alphabet, g: Gen)
    requires Supports(t) && g.saved == 0 && g.draws != [] && g.draws[0] == DRAW_A
    ensures Try(t, 3, g, Attempt([B], 0, 2, 1)) == Again(g.(draws := g.draws[1..]), Attempt([B, A], 1, 1, 2))
  {
    assert [B] + [A] == [B, A];
  }

  lemma FirstSyllable(t: Alphabet, length: nat)
    requires Supports(t) && length >= 1
    ensures var r := NextSyllable(t, length, NewGen(Witness(length)));
            && r.Syllable? && r.units == First(length)
            && (length >= 4 ==> r.g.saved == 1 && r.g.first == QU && r.g.draws == Closing(length - 1))
  {
    hide Supports, Try, Run, NextSyllable, Misplaced, Closing;
    var n := length;
    var g := NewGen(Witness(n));
    var g1 := g.(draws := g.draws[1..]);
    FirstUnits(t);
    TryFirst(t, n, g);
    RunOnce(t, n, g, Start(n));
    if n == 3 {
      TryBa(t, g1);
      RunOnce(t, n, g1, Attempt([B], 0, 2, 1));
      var g2 := g1.(draws := g1.draws[1..]);
      TryAfterA(t, n, g2, Attempt([B, A], 1, 1, 2));
      RunOnce(t, n, g2, Attempt([B, A], 1, 1, 2));
      assert [B, A] + [B] == [B, A, B];
    } else if n > 1 {
      TryAfterA(t, n, g1, Attempt([A], 1, n - 1, 1));
      RunOnce(t, n, g1, Attempt([A], 1, n - 1, 1));
      assert [A] + [B] == [A, B];
    }
    FirstIsPlaced(t, n);
    var r := Run(t, n, g, Start(n));
    ClosedIsNext(t, n, g, r.units, r.g);
  }

  lemma FirstUnits(t: Alphabet)
    requires Supports(t)
    ensures t.number(DRAW_A) == A && t.number(DRAW_B) == B
  {
  }

  lemma FirstIsPlaced(t: Alphabet, n: nat)
    requires Supports(t)
    ensures !Misplaced(t, First(n))
  {
  }

  function First(length: nat): seq<UnitId>
  {
    if length == 2 then [A, B] else if length == 3 then [B, A, B] else [A]
  }

  /** For every length there are draws for which the program's generator returns a word. */
  lemma SomeDrawsSucceed(length: nat)
    requires length >= 1
    ensures WordOf(ApgTables.APG, length, Witness(length)).Word?
  {
    ApgSupports();
    WitnessSucceeds(ApgTables.APG, length);
  }

  lemma JoinOne(units: seq<UnitId>)
    ensures Join([units]) == units
  {
  }

  lemma FirstIsAcceptable(t: Alphabet, length: nat)
    requires Supports(t) && length >= 1
    ensures var first := First(length);
            && Pronounceable(t, first) && HasProperVowel(t, first) && !FinalSplit(t, first)
  {
    var first := First(length);
    assert t.IsVowel(first[if length == 3 then 1 else 0]);
  }

  lemma FirstIsTaken(t: Alphabet, length: nat)
    requires Supports(t) && length >= 1
    ensures Grow(t, length, [], First(length)) == [First(length)]
    ensures Missing(t, length, [First(length)]) == if length <= 3 then 0 else length - 1
  {
    hide Supports, Pronounceable, HasProperVowel, FinalSplit, Join, Alphabet.Spell;
    var first := First(length);
    FirstIsAcceptable(t, length);
    FirstLength(t, length);
    JoinOne(first);
    NothingJoined();
    assert [] + first == first;
    assert [] + [first] == [first];
  }

  lemma FirstLength(t: Alphabet, length: nat)
    requires Supports(t) && length >= 1
    ensures |t.Spell(First(length))| == if length <= 3 then length else 1
  {
    hide Alphabet.Spell;
    var first := First(length);
    SpellSmall(t, first[0], if length == 2 then B else A, B);
  }

  lemma NothingJoined()
    ensures Join([]) == []
  {
  }

  lemma WitnessSucceeds(t: Alphabet, length: nat)
    requires Supports(t) && length >= 1
    ensures WordOf(t, length, Witness(length)).Word?
  {
    hide Supports, NextSyllable, Extend, Grow, Missing, Witness, Closing, Open;
    FirstSyllable(t, length);
    FirstIsTaken(t, length);
    var g := NewGen(Witness(length));
    AllIsMissing(t, length);
    ExtendUnfolds(t, length, g, [], 0);
    var s := NextSyllable(t, length, g);
    if length >= 4 {
      FirstIsOpen(t);
      ClosesWord(t, length, s.g, [[A]], 1);
    } else {
      ExtendUnfolds(t, length, s.g, [First(length)], 1);
    }
  }

  lemma AllIsMissing(t: Alphabet, length: nat)
    ensures Missing(t, length, []) == length
  {
  }

  lemma FirstIsOpen(t: Alphabet)
    requires Supports(t)
    ensures Open(t, [[A]])
  {
    JoinOne([A]);
  }
}
