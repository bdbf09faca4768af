/** The rules, digram and numbers tables of names/namegen.go. */
module ApgTables {
  import opened Phonology

  const RULES: seq<Rule> := [
    Rule("a", {Vowel}), Rule("b", {}), Rule("c", {}), Rule("d", {}), Rule("e", {NoFinalSplit, Vowel}),
    Rule("f", {}), Rule("g", {}), Rule("h", {}), Rule("i", {Vowel}), Rule("j", {}), Rule("k", {}),
    Rule("l", {}), Rule("m", {}), Rule("n", {}), Rule("o", {Vowel}), Rule("p", {}), Rule("r", {}),
    Rule("s", {}), Rule("t", {}), Rule("u", {Vowel}), Rule("v", {}), Rule("w", {}),
    Rule("x", {NotBeginSyllable}), Rule("y", {AlternateVowel, Vowel}), Rule("z", {}), Rule("ch", {}),
    Rule("gh", {}), Rule("ph", {}), Rule("rh", {}), Rule("sh", {}), Rule("th", {}), Rule("wh", {}),
    Rule("qu", {}), Rule("ck", {NotBeginSyllable})
  ]

  // The combinations of pair flags that occur in the digram table.
  const ANY: set<PairFlag> := {}
  const XX: set<PairFlag> := {IllegalPair}
  const NBE: set<PairFlag> := {NotBegin, Break, NotEnd}
  const NB: set<PairFlag> := {NotBegin}
  const NB_PX: set<PairFlag> := {NotBegin, Prefix}
  const NBE_PX: set<PairFlag> := {NotBegin, Break, Prefix, NotEnd}
  const BG_NE: set<PairFlag> := {Begin, NotEnd}
  const BG_SX_NE: set<PairFlag> := {Begin, Suffix, NotEnd}
  const NB_EN: set<PairFlag> := {NotBegin, End}
  const NB_NE: set<PairFlag> := {NotBegin, NotEnd}
  const SX_NE: set<PairFlag> := {Suffix, NotEnd}
  const NE: set<PairFlag> := {NotEnd}
  const BR_NE: set<PairFlag> := {Break, NotEnd}
  const BR: set<PairFlag> := {Break}
  const NB_PX_EN: set<PairFlag> := {NotBegin, Prefix, End}
  const BG_EN: set<PairFlag> := {Begin, End}
  const NB_SX_NE: set<PairFlag> := {NotBegin, Suffix, NotEnd}
  const NB_PX_NE: set<PairFlag> := {NotBegin, Prefix, NotEnd}
  const PX_SX_NE: set<PairFlag> := {Prefix, Suffix, NotEnd}
  const NB_BR: set<PairFlag> := {NotBegin, Break}
  const NB_PX_SX: set<PairFlag> := {NotBegin, Prefix, Suffix}
  const SX: set<PairFlag> := {Suffix}

  /** DIGRAM[i][j]: what is allowed when unit j follows unit i. */
  const DIGRAM: seq<seq<set<PairFlag>>> := [
    // 0: a
    [XX, ANY, ANY, ANY, XX, ANY, ANY, NBE, ANY, ANY, ANY, ANY, ANY, ANY, XX, ANY, ANY, ANY, ANY, ANY, ANY, ANY, ANY,
     ANY, ANY, ANY, XX, ANY, XX, ANY, ANY, XX, BR_NE, ANY],
    // 1: b
    [ANY, NBE, NBE, NBE, ANY, NBE, NBE, NBE, ANY, NBE, NBE, BG_SX_NE, NBE, NBE, ANY, NBE, BG_EN, NB, NBE, ANY, NBE,
     NBE, XX, ANY, NBE, NBE, XX, NBE, XX, NBE, NBE, XX, NBE, XX],
    // 2: c
    [ANY, NBE, NBE, NBE, ANY, NBE, NBE, NBE, ANY, NBE, NBE, SX_NE, NBE, NBE, ANY, NBE, NE, NB_EN, NB_PX, ANY, NBE,
     NBE, XX, ANY, NBE, XX, XX, NBE, XX, NBE, NBE, XX, NB_SX_NE, XX],
    // 3: d
    [ANY, NBE, NBE, NB, ANY, NBE, NBE, NBE, ANY, NBE, NBE, NBE, NBE, NBE, ANY, NBE, BG_NE, NB_EN, NBE, ANY, NBE,
     NBE, XX, ANY, NBE, NBE, NBE, NBE, XX, NB_NE, NB_PX, XX, NBE, XX],
    // 4: e
    [ANY, ANY, ANY, ANY, ANY, ANY, ANY, NBE, NE, ANY, ANY, ANY, ANY, ANY, BR, ANY, ANY, ANY, ANY, ANY, ANY, ANY,
     ANY, ANY, ANY, ANY, NBE, ANY, XX, ANY, ANY, XX, BR_NE, ANY],
    // 5: f
    [ANY, NBE, NBE, NBE, ANY, NB, NBE, NBE, ANY, NBE, NBE, BG_SX_NE, NBE, NBE, ANY, NBE, BG_NE, NB, NB, ANY, NBE,
     NBE, XX, NB, NBE, NBE, NBE, NBE, XX, NBE, NBE, XX, NBE, XX],
    // 6: g
    [ANY, NBE, NBE, NBE, ANY, NBE, NB, NBE, ANY, NBE, XX, BG_SX_NE, NBE, NBE, ANY, NBE, BG_NE, NB_EN, NBE, ANY, NBE,
     NBE, XX, NB, NBE, NBE, XX, NBE, XX, NB, NB, XX, NBE, XX],
    // 7: h
    [ANY, NBE, NBE, NBE, ANY, NBE, NBE, XX, ANY, NBE, NBE, NBE, NBE, NBE, ANY, NBE, NBE, NBE, NBE, ANY, NBE, NBE,
     XX, ANY, NBE, NBE, NBE, NBE, XX, NBE, NBE, XX, NBE, XX],
    // 8: i
    [ANY, ANY, ANY, ANY, NB, ANY, ANY, NBE, XX, ANY, ANY, ANY, ANY, ANY, BR, ANY, ANY, ANY, ANY, NBE, ANY, NBE, ANY,
     NBE, ANY, ANY, NB, ANY, XX, ANY, ANY, XX, BR_NE, ANY],
    // 9: j
    [ANY, NBE, NBE, NBE, ANY, NBE, XX, NBE, ANY, XX, NBE, NBE, NBE, NBE, ANY, NBE, NBE, NBE, NBE, ANY, NBE, NBE, XX,
     NB, NBE, NBE, NBE, NBE, XX, NBE, NBE, XX, NBE, XX],
    // 10: k
    [ANY, NBE, NBE, NBE, ANY, NBE, NBE, NBE, ANY, NBE, NBE, SX_NE, NBE, BG_SX_NE, ANY, NBE, SX_NE, NB_EN, NBE, ANY,
     NBE, NBE, XX, NB, NBE, NBE, NBE, NB_PX, XX, NB, NBE, XX, NBE, XX],
    // 11: l
    [ANY, NB_PX, NBE, NB_PX, ANY, NB_PX, NB_PX, NBE, ANY, NB_PX, NB_PX, NB_PX, NB_PX, NBE, ANY, NB_PX, NBE, NB,
     NB_PX, ANY, NB_PX, NBE, XX, ANY, NBE, NB_PX, NBE, NB_PX, XX, NB_PX, NB_PX, XX, NBE, XX],
    // 12: m
    [ANY, NBE, NBE, NBE, ANY, NBE, NBE, NBE, ANY, NBE, NBE, NBE, NB, NBE, ANY, NB, NBE, NB, NB, ANY, NBE, NBE, XX,
     ANY, NBE, NB_PX, NBE, NB, XX, NB, NB, XX, NBE, XX],
    // 13: n
    [ANY, NBE, NBE, NB, ANY, NBE, NB_PX, NBE, ANY, NBE, NB_PX, NBE, NBE, NB, ANY, NBE, NBE, NB, NB, ANY, NBE, NBE,
     XX, NB, NBE, NB_PX, NBE, NB_PX, XX, NB, NB, XX, NBE, NB_PX],
    // 14: o
    [ANY, ANY, ANY, ANY, XX, ANY, ANY, NBE, ANY, ANY, ANY, ANY, ANY, ANY, ANY, ANY, ANY, ANY, ANY, ANY, ANY, ANY,
     ANY, ANY, ANY, ANY, NB, ANY, XX, ANY, ANY, XX, BR_NE, ANY],
    // 15: p
    [ANY, NBE, NBE, NBE, ANY, NBE, NBE, NBE, ANY, NBE, NBE, SX_NE, NBE, NBE, ANY, NB_PX, NE, NB_EN, NB_EN, NB_EN,
     NBE, NBE, XX, ANY, NBE, NBE, NBE, NBE, XX, NBE, NBE, XX, NBE, XX],
    // 16: r
    [ANY, NB_PX, NB_PX, NB_PX, ANY, NB_PX, NB_PX, NBE, ANY, NB_PX, NB_PX, NB_PX, NB_PX, NB_PX, ANY, NB_PX, NB_PX,
     NB_PX, NB_PX, ANY, NB_PX, NBE, XX, ANY, NB_PX, NB_PX, NBE, NB_PX, XX, NB_PX, NB_PX, XX, NB_PX_NE, NB_PX],
    // 17: s
    [ANY, NBE, NE, NBE, ANY, NBE, NBE, NBE, ANY, NBE, ANY, BG_SX_NE, SX_NE, PX_SX_NE, ANY, ANY, NB_NE, NB_PX, ANY,
     ANY, NBE, BG_SX_NE, XX, ANY, NBE, BG_SX_NE, NBE, NBE, XX, NBE, NBE, XX, SX_NE, NB],
    // 18: t
    [ANY, NBE, NBE, NBE, ANY, NBE, NBE, NBE, ANY, NBE, NBE, NBE, NBE, NBE, ANY, NBE, NE, NB_EN, NB_PX, ANY, NBE,
     BG_SX_NE, XX, ANY, NBE, NB, NBE, NB_EN, XX, NB_EN, NBE, XX, NBE, XX],
    // 19: u
    [NBE, ANY, ANY, ANY, NB, ANY, ANY, NBE, NBE, ANY, ANY, ANY, ANY, ANY, NB_BR, ANY, ANY, ANY, ANY, XX, ANY, NBE,
     ANY, NBE, ANY, ANY, NB_PX, ANY, XX, ANY, ANY, XX, BR_NE, ANY],
    // 20: v
    [ANY, NBE, NBE, NBE, ANY, NBE, NBE, NBE, ANY, NBE, NBE, NBE, NBE, NBE, ANY, NBE, NBE, NBE, NBE, ANY, NBE, NBE,
     XX, NB, NBE, NBE, NBE, NBE, XX, NBE, NBE, XX, NBE, XX],
    // 21: w
    [ANY, NB_PX, NBE, NB_PX_EN, ANY, NB_PX, NB_PX_EN, NBE, ANY, NBE, NB_PX, NB_PX_SX, NB_PX, NB_PX, ANY, NB_PX,
     BG_SX_NE, NB_PX, NB_PX, ANY, NB_PX, NBE, NB_PX, ANY, NB_PX, NB, NBE, NB, XX, NB, NB, XX, NBE, NB],
    // 22: x
    [NB, NBE, NBE, NBE, NB, NBE, NBE, NBE, NB, NBE, NBE, NBE, NBE, NBE, NB, NBE, NBE, NBE, NBE, NB, NBE, NBE, XX,
     NB, NBE, NBE, NBE, NBE, XX, NBE, NBE, XX, NBE, XX],
    // 23: y
    [ANY, NB, NB_NE, NB, ANY, NB_NE, NB, NBE, BG_NE, NB_NE, NB, NB_NE, NB, NB, ANY, NB, NBE, NB, NB, ANY, NB_NE,
     NBE, NB, XX, NB, NBE, NBE, NBE, XX, NBE, NBE, XX, NBE, XX],
    // 24: z
    [ANY, NBE, NBE, NBE, ANY, NBE, NBE, NBE, ANY, NBE, NBE, NBE, NBE, NBE, ANY, NBE, NB_NE, NBE, NB, ANY, NBE,
     SX_NE, XX, ANY, NB, NBE, NBE, NBE, XX, NBE, NBE, XX, NBE, XX],
    // 25: ch
    [ANY, NBE, NBE, NBE, ANY, NBE, NBE, NBE, ANY, NBE, NBE, NBE, NBE, NBE, ANY, NBE, NE, NBE, NBE, ANY, NBE, NB_NE,
     XX, ANY, NBE, XX, NBE, NBE, XX, NBE, NBE, XX, NBE, XX],
    // 26: gh
    [ANY, NBE_PX, NBE_PX, NBE_PX, ANY, NBE_PX, NBE_PX, NBE_PX, BG_NE, NBE_PX, NBE_PX, NBE_PX, NBE_PX, NBE_PX, BG_NE,
     NBE, NBE_PX, NB_PX, NB_PX, NBE_PX, NBE_PX, NBE_PX, XX, NBE_PX, NBE_PX, NBE_PX, XX, NBE_PX, XX, NBE_PX, NBE_PX,
     XX, NBE_PX, XX],
    // 27: ph
    [ANY, NBE, NBE, NBE, ANY, NBE, NBE, NBE, ANY, NBE, NBE, BG_SX_NE, NBE, NBE, ANY, NBE, NE, NB, NB, ANY, NB_NE,
     NB_NE, XX, NB, NBE, NBE, NBE, XX, XX, NBE, NBE, XX, NBE, XX],
    // 28: rh
    [BG_NE, XX, XX, XX, BG_NE, XX, XX, XX, BG_NE, XX, XX, XX, XX, XX, BG_NE, XX, XX, XX, XX, BG_NE, XX, XX, XX,
     BG_NE, XX, XX, XX, XX, XX, XX, XX, XX, XX, XX],
    // 29: sh
    [ANY, NBE, NBE, NBE, ANY, NBE, NBE, XX, ANY, NBE, NB, BG_SX_NE, BG_SX_NE, BG_SX_NE, ANY, NB, BG_SX_NE, NBE, SX,
     ANY, NBE, SX_NE, XX, ANY, NBE, NBE, NBE, NBE, XX, XX, NBE, XX, NBE, XX],
    // 30: th
    [ANY, NBE, NBE, NBE, ANY, NBE, NBE, NBE, ANY, NBE, NBE, NBE, NBE, NBE, ANY, NBE, NE, NB_EN, NBE, ANY, NBE,
     SX_NE, XX, ANY, NBE, NBE, NBE, NBE, XX, NBE, XX, XX, NBE, XX],
    // 31: wh
    [BG_NE, XX, XX, XX, BG_NE, XX, XX, XX, BG_NE, XX, XX, XX, XX, XX, BG_NE, XX, XX, XX, XX, XX, XX, XX, XX, BG_NE,
     XX, XX, XX, XX, XX, XX, XX, XX, XX, XX],
    // 32: qu
    [ANY, XX, XX, XX, ANY, XX, XX, XX, ANY, XX, XX, XX, XX, XX, ANY, XX, XX, XX, XX, XX, XX, XX, XX, XX, XX, XX, XX,
     XX, XX, XX, XX, XX, XX, XX],
    // 33: ck
    [NBE, NBE, NBE, NBE, NBE, NBE, NBE, NBE, NBE, NBE, NBE, NBE, NBE, NBE, NBE, NBE, NBE, NB, NBE, NBE, NBE, NBE,
     XX, NB, NBE, NBE, NBE, NBE, XX, NBE, NBE, XX, NBE, XX]
  ]

  /** The units a draw can produce, weighted by how often they occur. */
  const NUMBERS: seq<UnitId> :=
    [0, 0, 0, 0, 0, 0, 0, 0, 0, 0] +
    [1, 1, 1, 1, 1, 1, 1, 1] +
    [2, 2, 2, 2, 2, 2, 2, 2, 2, 2, 2, 2] +
    [3, 3, 3, 3, 3, 3, 3, 3, 3, 3, 3, 3] +
    [4, 4, 4, 4, 4, 4, 4, 4, 4, 4, 4, 4] +
    [5, 5, 5, 5, 5, 5, 5, 5] +
    [6, 6, 6, 6, 6, 6, 6, 6] +
    [7, 7, 7, 7, 7, 7] +
    [8, 8, 8, 8, 8, 8, 8, 8, 8, 8] +
    [9, 9, 9, 9, 9, 9, 9, 9] +
    [10, 10, 10, 10, 10, 10, 10, 10] +
    [11, 11, 11, 11, 11, 11] +
    [12, 12, 12, 12, 12, 12] +
    [13, 13, 13, 13, 13, 13, 13, 13, 13, 13] +
    [14, 14, 14, 14, 14, 14, 14, 14, 14, 14] +
    [15, 15, 15, 15, 15, 15] +
    [16, 16, 16, 16, 16, 16, 16, 16, 16, 16] +
    [17, 17, 17, 17, 17, 17, 17, 17] +
    [18, 18, 18, 18, 18, 18, 18, 18, 18, 18] +
    [19, 19, 19, 19, 19, 19] +
    [20, 20, 20, 20, 20, 20, 20, 20] +
    [21, 21, 21, 21, 21, 21, 21, 21] +
    [22] +
    [23, 23, 23, 23, 23, 23, 23, 23] +
    [24, 25, 26, 27, 28, 29, 29, 30, 31, 32, 33]

  const VOWEL_NUMBERS: seq<UnitId> := [0, 0, 4, 4, 4, 8, 8, 14, 14, 19, 19, 23]

  const APG: Alphabet := Alphabet((u: UnitId) => RULES[u],
                                  (u: UnitId, v: UnitId) => DIGRAM[u][v],
                                  (draw: nat) => NUMBERS[draw % |NUMBERS|],
                                  (draw: nat) => VOWEL_NUMBERS[draw % |VOWEL_NUMBERS|])

  lemma RuleFacts(u: UnitId)
    ensures 1 <= |RULES[u].code| <= 2 && IsLowerWord(RULES[u].code)
    ensures NotBeginSyllable in RULES[u].flags <==> u == 22 || u == 33
  {
  }

  lemma RowsWithoutBegin(v: UnitId)
    ensures Begin !in DIGRAM[22][v] && Begin !in DIGRAM[33][v]
  {
  }

  /** The program's tables form a sound alphabet. */
  lemma ApgIsSound()
    ensures APG.Sound()
  {
    forall u: UnitId
      ensures 1 <= |APG.rule(u).code| <= 2 && IsLowerWord(APG.rule(u).code)
      ensures APG.CannotBegin(u) <==> u == 22 || u == 33
    {
      RuleFacts(u);
    }
    assert !APG.CannotBegin(0);
    forall u: UnitId, v: UnitId | Begin in APG.pair(u, v)
      ensures NotBeginSyllable !in APG.rule(u).flags
    {
      RowsWithoutBegin(v);
      assert u != 22 && u != 33;
      assert !APG.CannotBegin(u);
    }
  }
}
