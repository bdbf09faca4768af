/**
 filter/replace.go: the shared replacement table, from replacement to original, what a call of
 GetReplacement may do to it, and what every call keeps.
 */
module Table {
  import opened Text
  import opened Casing
  import opened Phonology

  type Entries = map<string, string>

  const MIN_NAME_LENGTH: nat := 8
  const MAX_NAME_LENGTH: nat := 255

  function NewLength(original: string): nat
  {
    var n := if |original| > MIN_NAME_LENGTH then |original| else MIN_NAME_LENGTH;
    if n < MAX_NAME_LENGTH then n else MAX_NAME_LENGTH
  }

  /** Keys with a dot stand for a label together with its suffix. */
  predicate DotFree(key: string) { '.' !in key }

  /** key stands for exactly this original. */
  ghost predicate Stands(m: Entries, key: string, original: string)
  {
    key in m && m[key] == original && DotFree(key)
  }

  ghost predicate Known(m: Entries, original: string)
  {
    exists key :: key in m && Stands(m, key, original)
  }

  /** key stands for a case variant of the original. */
  ghost predicate StandsUpToCase(m: Entries, key: string, original: string)
  {
    key in m && Fold(m[key]) == Fold(original) && DotFree(key)
  }

  ghost predicate KnownUpToCase(m: Entries, original: string)
  {
    exists key :: key in m && StandsUpToCase(m, key, original)
  }

  /** rep is the key of a case variant, cased like the original; any such key may be taken. */
  ghost predicate Adapted(m: Entries, original: string, rep: string)
  {
    exists key :: key in m && StandsUpToCase(m, key, original) && rep == MatchCased(original, key)
  }

  /** rep is a new word, cased like the original, not in the input and not yet a key. */
  ghost predicate Drawn(m: Entries, original: string, fullInput: string, rep: string)
  {
    && (exists word :: IsLowerWord(word) && |word| == NewLength(original) && rep == MatchCased(original, word))
    && !Contains(fullInput, rep)
    && rep !in m
  }

  /**
   GetReplacement may return rep for original. The order in which the table is searched is left
   open. Afterwards the table is m[rep := original] in every case.
   */
  ghost predicate MayReturn(m: Entries, original: string, fullInput: string, rep: string)
  {
    if Known(m, original) then Stands(m, rep, original)
    else if KnownUpToCase(m, original) then Adapted(m, original, rep)
    else Drawn(m, original, fullInput, rep)
  }

  /** A new word is drawn for this original. */
  ghost predicate NeedsDraw(m: Entries, original: string)
  {
    !Known(m, original) && !KnownUpToCase(m, original)
  }

  lemma DrawnIsWord(m: Entries, original: string, fullInput: string, rep: string)
    requires Drawn(m, original, fullInput, rep)
    ensures IsLetters(rep) && DotFree(rep)
    ensures |original| <= 8 ==> |rep| == 8
    ensures 8 <= |original| <= 255 ==> |rep| == |original|
    ensures |original| > 255 ==> |rep| == 255
    ensures |original| <= MAX_NAME_LENGTH ==> CasedLike(original, rep)
  {
    var word :| IsLowerWord(word) && |word| == NewLength(original) && rep == MatchCased(original, word);
    assert IsLetters(word);
    MatchCasedKeepsLetters(original, word);
    if |original| <= MAX_NAME_LENGTH {
      MatchCasedIsCasedLike(original, word);
    }
  }

  lemma AdaptedIsDotFree(m: Entries, original: string, key: string)
    requires StandsUpToCase(m, key, original)
    ensures DotFree(MatchCased(original, key))
  {
  }

  /** The replacement returned has no dot. */
  lemma ReturnsDotFree(m: Entries, original: string, fullInput: string, rep: string)
    requires MayReturn(m, original, fullInput, rep)
    ensures DotFree(rep)
  {
    if Known(m, original) {
    } else if KnownUpToCase(m, original) {
      var key :| key in m && StandsUpToCase(m, key, original) && rep == MatchCased(original, key);
      AdaptedIsDotFree(m, original, key);
    } else {
      DrawnIsWord(m, original, fullInput, rep);
    }
  }

  /** At most one key without a dot for each original. */
  ghost predicate OneKeyEach(m: Entries)
  {
    forall k1, k2 :: k1 in m && k2 in m && DotFree(k1) && DotFree(k2) && m[k1] == m[k2] ==> k1 == k2
  }

  /** A call keeps one key each, even when it overwrites an entry. */
  lemma KeepsOneKeyEach(m: Entries, original: string, fullInput: string, rep: string)
    requires OneKeyEach(m) && MayReturn(m, original, fullInput, rep)
    ensures OneKeyEach(m[rep := original])
    ensures Stands(m[rep := original], rep, original)
  {
    ReturnsDotFree(m, original, fullInput, rep);
    var m' := m[rep := original];
    forall k1, k2 | k1 in m' && k2 in m' && DotFree(k1) && DotFree(k2) && m'[k1] == m'[k2]
      ensures k1 == k2
    {
      if k1 != k2 && (k1 == rep || k2 == rep) {
        var other := if k1 == rep then k2 else k1;
        assert Stands(m, other, original);
      }
    }
  }

  /** Asking again, whatever the input then, returns the same replacement and changes nothing. */
  lemma RepeatedCall(m: Entries, original: string, fullInput: string, rep: string, again: string, input: string)
    requires OneKeyEach(m) && MayReturn(m, original, fullInput, rep)
    requires MayReturn(m[rep := original], original, input, again)
    ensures again == rep && m[rep := original][again := original] == m[rep := original]
  {
    KeepsOneKeyEach(m, original, fullInput, rep);
    assert Known(m[rep := original], original);
  }

  /** A table in which case variants cannot collide. */
  ghost predicate StableKey(m: Entries, key: string)
    requires key in m
  {
    IsLetters(key) && CasedLike(m[key], key)
  }

  ghost predicate SameName(m: Entries, k1: string, k2: string)
    requires k1 in m && k2 in m
  {
    Fold(k1) == Fold(k2) ==> Fold(m[k1]) == Fold(m[k2])
  }

  ghost predicate Stable(m: Entries)
  {
    && (forall key :: key in m && DotFree(key) ==> StableKey(m, key))
    && (forall k1, k2 :: k1 in m && k2 in m && DotFree(k1) && DotFree(k2) ==> SameName(m, k1, k2))
  }

  /** rep is no key, not even up to case. */
  ghost predicate NewUpToCase(m: Entries, rep: string)
  {
    forall key :: key in m && DotFree(key) ==> Fold(key) != Fold(rep)
  }

  /** What the code does not check of a drawn word: the length of its original, and keys in another case. */
  ghost predicate Separated(m: Entries, original: string, rep: string)
  {
    NeedsDraw(m, original) ==> |original| <= MAX_NAME_LENGTH && NewUpToCase(m, rep)
  }

  lemma StepIsCasedLike(m: Entries, original: string, fullInput: string, rep: string)
    requires Stable(m) && MayReturn(m, original, fullInput, rep) && Separated(m, original, rep)
    ensures IsLetters(rep) && CasedLike(original, rep)
    ensures forall key :: key in m && DotFree(key) && Fold(key) == Fold(rep) ==> Fold(m[key]) == Fold(original)
  {
    if Known(m, original) {
      assert StableKey(m, rep);
      forall key | key in m && DotFree(key) && Fold(key) == Fold(rep)
        ensures Fold(m[key]) == Fold(original)
      {
        assert SameName(m, key, rep);
      }
    } else if KnownUpToCase(m, original) {
      var known :| known in m && StandsUpToCase(m, known, original) && rep == MatchCased(original, known);
      assert StableKey(m, known);
      assert |original| == |Fold(original)| == |m[known]| <= |known|;
      MatchCasedKeepsLetters(original, known);
      MatchCasedIsCasedLike(original, known);
      forall key | key in m && DotFree(key) && Fold(key) == Fold(rep)
        ensures Fold(m[key]) == Fold(original)
      {
        assert SameName(m, key, known);
      }
    } else {
      DrawnIsWord(m, original, fullInput, rep);
    }
  }

  /** A call on a stable table never overwrites an entry. */
  lemma LosesNoEntry(m: Entries, original: string, fullInput: string, rep: string)
    requires Stable(m) && MayReturn(m, original, fullInput, rep)
    ensures rep in m ==> m[rep] == original
  {
    if rep in m && !NeedsDraw(m, original) {
      StepIsCasedLike(m, original, fullInput, rep);
      ReturnsDotFree(m, original, fullInput, rep);
      assert StableKey(m, rep);
      CaseSeparates(m[rep], original, rep);
    }
  }

  /** What a drawn word is assumed to satisfy leaves the table stable. */
  lemma KeepsStable(m: Entries, original: string, fullInput: string, rep: string)
    requires Stable(m) && MayReturn(m, original, fullInput, rep) && Separated(m, original, rep)
    ensures rep in m ==> m[rep] == original
    ensures Stable(m[rep := original])
  {
    hide MayReturn, Separated;
    LosesNoEntry(m, original, fullInput, rep);
    StepIsCasedLike(m, original, fullInput, rep);
    ReturnsDotFree(m, original, fullInput, rep);
    var m' := m[rep := original];
    forall key | key in m' && DotFree(key)
      ensures StableKey(m', key)
    {
      assert key != rep ==> StableKey(m, key);
    }
    forall k1, k2 | k1 in m' && k2 in m' && DotFree(k1) && DotFree(k2)
      ensures SameName(m', k1, k2)
    {
      assert k1 != rep && k2 != rep ==> SameName(m, k1, k2);
    }
  }

  /** A drawn word that leaves the table stable is separated from all keys. */
  lemma StableIsSeparated(m: Entries, original: string, fullInput: string, rep: string)
    requires NeedsDraw(m, original) && Drawn(m, original, fullInput, rep) && Stable(m[rep := original])
    ensures |original| <= MAX_NAME_LENGTH && NewUpToCase(m, rep)
  {
    hide Drawn, CasedLike;
    var m' := m[rep := original];
    assert rep !in m by {
      DrawnIsNew(m, original, fullInput, rep);
    }
    DrawnIsWord(m, original, fullInput, rep);
    assert StableKey(m', rep);
    CasedLikeIsLonger(original, rep);
    forall key | key in m && DotFree(key)
      ensures Fold(key) != Fold(rep)
    {
      assert SameName(m', key, rep);
      assert !StandsUpToCase(m, key, original);
    }
  }

  lemma DrawnIsNew(m: Entries, original: string, fullInput: string, rep: string)
    requires Drawn(m, original, fullInput, rep)
    ensures rep !in m && !Contains(fullInput, rep)
  {
  }

  lemma CasedLikeIsLonger(original: string, key: string)
    requires CasedLike(original, key)
    ensures |original| <= |key|
  {
  }

  /**
   A call leaves a stable table stable if and only if no word was drawn, or one for a short enough
   original and different from all keys up to case.
   */
  lemma KeepsStableIff(m: Entries, original: string, fullInput: string, rep: string)
    requires Stable(m) && MayReturn(m, original, fullInput, rep)
    ensures Stable(m[rep := original]) <==>
            (NeedsDraw(m, original) ==> |original| <= MAX_NAME_LENGTH && NewUpToCase(m, rep))
  {
    hide Stable, Drawn, NewUpToCase;
    if Separated(m, original, rep) {
      KeepsStable(m, original, fullInput, rep);
    } else if Stable(m[rep := original]) {
      StableIsSeparated(m, original, fullInput, rep);
    }
  }

  lemma DrawsForBob(m: Entries, fullInput: string)
    requires m == map["Aquaquab" := "Alice"] && !Contains(fullInput, "aquaquab")
    ensures Stable(m) && MayReturn(m, "bob", fullInput, "aquaquab")
  {
    assert |Fold("Alice")| == 5 && |Fold("bob")| == 3;
    var bob, word := "bob", "aquaquab";
    assert IsLetter(bob[0]) && AllLower(bob);
    assert MatchCased(bob, word) == word;
    assert IsLowerWord(word) && |word| == NewLength(bob);
  }

  /** Upper case is what both ALICE and BOB need. */
  lemma UpperIsReturned(m: Entries, key: string, name: string, fullInput: string)
    requires Fold(key) == "aquaquab" && |name| > 0 && forall i :: 0 <= i < |name| ==> IsUpper(name[i])
    requires !Known(m, name) && StandsUpToCase(m, key, name)
    ensures MayReturn(m, name, fullInput, "AQUAQUAB")
  {
    assert IsLetter(name[0]) && AllUpper(name);
    var r := MatchCased(name, key);
    assert |key| == |Fold(key)| == 8;
    forall i | 0 <= i < 8
      ensures r[i] == "AQUAQUAB"[i]
    {
      assert r[i] == ToUpper(key[i]) && ToLower(key[i]) == Fold(key)[i];
    }
    assert r == "AQUAQUAB";
  }

  /**
   What an unstable table leads to. The code compares a drawn word with the keys in exact case only: here
   aquaquab is accepted for bob although Aquaquab already stands for Alice, and from then on ALICE is
   given the replacement of BOB, whose entry is lost.
   */
  lemma CollidingDrawLosesEntry(fullInput: string)
    requires !Contains(fullInput, "aquaquab")
    ensures var m := map["Aquaquab" := "Alice"];
            var m1 := m["aquaquab" := "bob"];
            var m2 := m1["AQUAQUAB" := "BOB"];
            && Stable(m) && MayReturn(m, "bob", fullInput, "aquaquab")
            && MayReturn(m1, "BOB", fullInput, "AQUAQUAB")
            && MayReturn(m2, "ALICE", fullInput, "AQUAQUAB") && m2["AQUAQUAB"] == "BOB"
  {
    hide *;
    var m := map["Aquaquab" := "Alice"];
    DrawsForBob(m, fullInput);
    var m1 := m["aquaquab" := "bob"];
    UpperBob(m1, fullInput);
    UpperAlice(m1["AQUAQUAB" := "BOB"], fullInput);
  }

  lemma UpperBob(m: Entries, fullInput: string)
    requires m == map["Aquaquab" := "Alice", "aquaquab" := "bob"]
    ensures MayReturn(m, "BOB", fullInput, "AQUAQUAB")
  {
    hide IsLowerWord, MayReturn;
    assert Fold("bob") == "bob" == Fold("BOB");
    UpperIsReturned(m, "aquaquab", "BOB", fullInput);
  }

  lemma UpperAlice(m: Entries, fullInput: string)
    requires m == map["Aquaquab" := "Alice", "aquaquab" := "bob", "AQUAQUAB" := "BOB"]
    ensures MayReturn(m, "ALICE", fullInput, "AQUAQUAB")
  {
    hide IsLowerWord, MayReturn;
    assert Fold("Alice") == "alice" == Fold("ALICE");
    UpperIsReturned(m, "Aquaquab", "ALICE", fullInput);
  }
}
