/** filter/replace.go, matchCasing: the case of a name carried over to its replacement. */
module Casing {
  import opened Text

  predicate AllUpper(s: string)
  {
    (exists i :: 0 <= i < |s| && IsLetter(s[i])) && forall i :: 0 <= i < |s| && IsLetter(s[i]) ==> IsUpper(s[i])
  }

  predicate AllLower(s: string)
  {
    (exists i :: 0 <= i < |s| && IsLetter(s[i])) && forall i :: 0 <= i < |s| && IsLetter(s[i]) ==> IsLower(s[i])
  }

  /** Character c in the case of the character at the same place in the original, if that is a letter. */
  function CasedChar(original: string, i: nat, c: char): char
  {
    if AllUpper(original) then ToUpper(c)
    else if AllLower(original) then ToLower(c)
    else if i < |original| && IsUpper(original[i]) then ToUpper(c)
    else if i < |original| && IsLower(original[i]) then ToLower(c)
    else c
  }

  function MatchCased(original: string, replacement: string): (r: string)
    ensures |r| == |replacement|
  {
    seq(|replacement|, i requires 0 <= i < |replacement| => CasedChar(original, i, replacement[i]))
  }

  predicate HasUpper(s: string) { exists i :: 0 <= i < |s| && IsUpper(s[i]) }

  predicate HasLower(s: string) { exists i :: 0 <= i < |s| && IsLower(s[i]) }

  /**
   Every character of the result: an original of one case gives that case to all of it; one of both cases, or
   without letters, to the letter at the same place only, and nothing behind its end changes.
   */
  lemma CasedAt(original: string, replacement: string, i: nat)
    requires i < |replacement|
    ensures var c, r := replacement[i], MatchCased(original, replacement)[i];
            && (HasUpper(original) && !HasLower(original) ==> r == ToUpper(c))
            && (HasLower(original) && !HasUpper(original) ==> r == ToLower(c))
            && (HasUpper(original) == HasLower(original) ==>
                  && (i >= |original| ==> r == c)
                  && (i < |original| && !IsLetter(original[i]) ==> r == c)
                  && (i < |original| && IsUpper(original[i]) ==> r == ToUpper(c))
                  && (i < |original| && IsLower(original[i]) ==> r == ToLower(c)))
  {
    if HasUpper(original) && !HasLower(original) {
      assert AllUpper(original);
    }
    if HasLower(original) && !HasUpper(original) {
      assert AllLower(original) && !AllUpper(original);
    }
    if HasUpper(original) && HasLower(original) {
      assert !AllUpper(original) && !AllLower(original);
    }
  }

  /** key has upper case where the original has, and lower case where the original has. */
  predicate CasedLike(original: string, key: string)
  {
    && |original| <= |key|
    && forall i :: 0 <= i < |original| ==>
         (IsUpper(original[i]) ==> IsUpper(key[i])) && (IsLower(original[i]) ==> IsLower(key[i]))
  }

  /** The replacement keeps its letters up to case; what is no letter stays as it is. */
  lemma MatchCasedKeepsLetters(original: string, replacement: string)
    ensures var r := MatchCased(original, replacement);
            && Fold(r) == Fold(replacement)
            && (IsLetters(replacement) ==> IsLetters(r))
            && forall i :: 0 <= i < |r| ==> !IsLetter(replacement[i]) ==> r[i] == replacement[i]
  {
    var r := MatchCased(original, replacement);
    forall i | 0 <= i < |r|
      ensures ToLower(r[i]) == ToLower(replacement[i]) && (IsLetter(replacement[i]) <==> IsLetter(r[i]))
    {
      assert r[i] == CasedChar(original, i, replacement[i]);
    }
  }

  lemma MatchCasedIsCasedLike(original: string, replacement: string)
    requires IsLetters(replacement) && |original| <= |replacement|
    ensures CasedLike(original, MatchCased(original, replacement))
  {
  }

  /** Two case variants of one name never share a key that is cased like both. */
  lemma CaseSeparates(a: string, b: string, key: string)
    requires Fold(a) == Fold(b) && CasedLike(a, key) && CasedLike(b, key)
    ensures a == b
  {
  }

  method MatchCasing(original: string, replacement: string) returns (cased: string)
    ensures cased == MatchCased(original, replacement)
  {
    var result := new char[|replacement|](_ => ' ');
    var allUpper, hasLetter := true, false;
    for k := 0 to |original|
      invariant hasLetter <==> exists i :: 0 <= i < k && IsLetter(original[i])
      invariant allUpper <==> forall i :: 0 <= i < k && IsLetter(original[i]) ==> IsUpper(original[i])
    {
      if IsLetter(original[k]) {
        hasLetter := true;
        if !IsUpper(original[k]) {
          allUpper := false;
        }
      }
    }
    if hasLetter && allUpper {
      for k := 0 to |replacement|
        invariant forall i :: 0 <= i < k ==> result[i] == CasedChar(original, i, replacement[i])
      {
        result[k] := ToUpper(replacement[k]);
      }
      return result[..];
    }
    var allLower;
    allLower, hasLetter := true, false;
    for k := 0 to |original|
      invariant hasLetter <==> exists i :: 0 <= i < k && IsLetter(original[i])
      invariant allLower <==> forall i :: 0 <= i < k && IsLetter(original[i]) ==> IsLower(original[i])
    {
      if IsLetter(original[k]) {
        hasLetter := true;
        if !IsLower(original[k]) {
          allLower := false;
        }
      }
    }
    if hasLetter && allLower {
      for k := 0 to |replacement|
        invariant forall i :: 0 <= i < k ==> result[i] == CasedChar(original, i, replacement[i])
      {
        result[k] := ToLower(replacement[k]);
      }
      return result[..];
    }
    for k := 0 to |replacement|
      invariant forall i :: 0 <= i < k ==> result[i] == CasedChar(original, i, replacement[i])
    {
      var c := replacement[k];
      if k < |original| {
        if IsUpper(original[k]) {
          c := ToUpper(c);
        } else if IsLower(original[k]) {
          c := ToLower(c);
        }
      }
      result[k] := c;
    }
    return result[..];
  }
}
