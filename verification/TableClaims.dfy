/** What the documentation claims of the replacement table, and how far it holds. */
module TableClaims {
  import opened Text
  import opened Casing
  import opened Table
  import opened Unredaction
  import Phonology

  /**
   A name with an entry for itself: if it has no dot, every answer is the name itself if and only if no
   other key stands for it; if it has a dot, no answer is.
   */
  lemma ExemptIff(m: Entries, name: string, fullInput: string)
    requires name in m && m[name] == name
    ensures DotFree(name) ==>
              ((forall rep :: MayReturn(m, name, fullInput, rep) ==> rep == name) <==>
               forall key :: key in m && Stands(m, key, name) ==> key == name)
    ensures !DotFree(name) ==> forall rep :: MayReturn(m, name, fullInput, rep) ==> rep != name
  {
    if DotFree(name) {
      assert Stands(m, name, name);
      forall key | key in m && Stands(m, key, name)
        ensures MayReturn(m, name, fullInput, key)
      {
      }
    } else {
      forall rep | MayReturn(m, name, fullInput, rep)
        ensures rep != name
      {
        ReturnsDotFree(m, name, fullInput, rep);
      }
    }
  }

  /** On a table with one key for each original the dot alone decides. */
  lemma ExemptIffDotFree(m: Entries, name: string, fullInput: string, rep: string)
    requires OneKeyEach(m) && name in m && m[name] == name && MayReturn(m, name, fullInput, rep)
    ensures rep == name <==> DotFree(name)
  {
    ExemptIff(m, name, fullInput);
  }

  /** A name without a dot that was redacted before it was entered for itself may still be replaced. */
  lemma SecondEntryIsReturned(fullInput: string)
    ensures var m, name := map["bob" := "bob", "aquaquab" := "bob"], "bob";
            && name in m && m[name] == name && DotFree(name) && Stable(m) && LetterKeys(m)
            && MayReturn(m, name, fullInput, "aquaquab")
  {
    var m, name, other := map["bob" := "bob", "aquaquab" := "bob"], "bob", "aquaquab";
    assert CasedLike(name, name) && CasedLike(name, other);
    assert StableKey(m, name) && StableKey(m, other);
    assert Stands(m, other, name);
  }

  /** A name with a dot that has an entry for itself is replaced all the same. */
  lemma DottedNameIsReplaced(fullInput: string)
    requires !Contains(fullInput, "aquaquab")
    ensures var m, name := map["a.b" := "a.b"], "a.b";
            && name in m && m[name] == name && OneKeyEach(m)
            && MayReturn(m, name, fullInput, "aquaquab")
  {
    var name, word := "a.b", "aquaquab";
    assert name[1] == '.' && IsLetter(name[0]) && AllLower(name);
    assert MatchCased(name, word) == word;
    assert Phonology.IsLowerWord(word) && |word| == NewLength(name);
  }

  lemma CasedAsItself(original: string, key: string)
    requires Fold(key) == Fold(original)
    ensures MatchCased(original, key) == original
  {
  }

  /** Adapting a key to a name gives the name exactly if the key is the name up to case. */
  lemma AdaptsToItselfIff(original: string, key: string)
    ensures MatchCased(original, key) == original <==> Fold(key) == Fold(original)
  {
    MatchCasedKeepsLetters(original, key);
    if Fold(key) == Fold(original) {
      CasedAsItself(original, key);
    }
  }

  /**
   In another casing every answer is the text asked for if and only if that holds of all keys that
   stand for it or, without any, of all keys that would be adapted.
   */
  lemma ExemptInAnyCaseIff(m: Entries, name: string, original: string, fullInput: string)
    requires name in m && m[name] == name && DotFree(name) && Fold(original) == Fold(name)
    ensures (forall rep :: MayReturn(m, original, fullInput, rep) ==> rep == original) <==>
            if Known(m, original) then
              forall key :: key in m && Stands(m, key, original) ==> key == original
            else
              forall key :: key in m && StandsUpToCase(m, key, original) ==> Fold(key) == Fold(original)
  {
    hide DotFree, Fold, MatchCased;
    assert StandsUpToCase(m, name, original);
    if Known(m, original) {
      forall key | key in m && Stands(m, key, original)
        ensures MayReturn(m, original, fullInput, key)
      {
      }
    } else {
      forall key | key in m && StandsUpToCase(m, key, original)
        ensures MayReturn(m, original, fullInput, MatchCased(original, key))
        ensures MatchCased(original, key) == original <==> Fold(key) == Fold(original)
      {
        AdaptsToItselfIff(original, key);
      }
    }
  }

  /** Entries for this name, in whatever case, stand for themselves. */
  ghost predicate StandsForItself(m: Entries, name: string)
  {
    forall key :: key in m && Fold(m[key]) == Fold(name) ==> m[key] == key
  }

  /** Where all entries for a name stand for themselves it is exempt in every casing, and stays so. */
  lemma ExemptInAnyCase(m: Entries, name: string, original: string, fullInput: string, rep: string)
    requires name in m && m[name] == name && DotFree(name) && StandsForItself(m, name)
    requires Fold(original) == Fold(name) && MayReturn(m, original, fullInput, rep)
    ensures rep == original && StandsForItself(m[rep := original], name)
  {
    hide DotFree, MatchCased, MayReturn;
    ExemptInAnyCaseIff(m, name, original, fullInput);
  }

  lemma NoLowerKey(text: string, key: string)
    requires key != "" && IsLower(key[0]) && forall i :: 0 <= i < |text| ==> !IsLower(text[i])
    ensures !Contains(text, key)
  {
  }

  lemma HoldsAquaquab(text: string)
    requires text == "BOB AQUAQUAB"
    ensures Contains(text, "AQUAQUAB")
  {
    assert text[4..12] == "AQUAQUAB";
    assert OccursAt(text, "AQUAQUAB", 4);
  }

  /**
   No answer open to a call occurs in the input if and only if none of the keys does that stand for the
   original already, or, when there is none, that would be adapted from another casing. The check of the
   code covers words drawn now, not what is in the table.
   */
  lemma AvoidsInputIff(m: Entries, original: string, fullInput: string)
    ensures (forall rep :: MayReturn(m, original, fullInput, rep) ==> !Contains(fullInput, rep)) <==>
            if Known(m, original) then
              forall key :: key in m && Stands(m, key, original) ==> !Contains(fullInput, key)
            else
              forall key :: key in m && StandsUpToCase(m, key, original) ==>
                !Contains(fullInput, MatchCased(original, key))
  {
    hide Contains, DotFree, Fold, MatchCased;
    if Known(m, original) {
      forall key | key in m && Stands(m, key, original)
        ensures MayReturn(m, original, fullInput, key)
      {
      }
    } else {
      forall key | key in m && StandsUpToCase(m, key, original)
        ensures MayReturn(m, original, fullInput, MatchCased(original, key))
      {
      }
    }
  }

  /**
   A replacement may occur in the input it is made for: the check covers drawn words only, not the keys
   adapted to another casing. Here BOB becomes AQUAQUAB, which the text already holds.
   */
  lemma VariantCollidesWithInput()
    ensures var m, text, rep := map["aquaquab" := "bob"], "BOB AQUAQUAB", "AQUAQUAB";
            && Stable(m) && LetterKeys(m) && NoKeyIn(m, text)
            && MayReturn(m, "BOB", text, rep) && Contains(text, rep)
  {
    hide MayReturn;
    var key, bob, text := "aquaquab", "bob", "BOB AQUAQUAB";
    var m := map[key := bob];
    assert CasedLike(bob, key) && StableKey(m, key);
    assert Fold(key) == key && Fold(bob) == "bob" == Fold("BOB");
    assert forall i :: 0 <= i < |text| ==> !IsLower(text[i]);
    NoLowerKey(text, key);
    HoldsAquaquab(text);
    UpperIsReturned(m, key, "BOB", text);
  }
}
