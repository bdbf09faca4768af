/** filter/replace.go: the methods on the shared table. */
module Replace {
  import opened Text
  import opened Casing
  import opened Table
  import opened Unredaction
  import opened Sorting
  import opened NameGen
  import Phonology

  /** The map that all filters hold a pointer to. */
  class Replacements {
    var m: Entries

    constructor ()
      ensures m == map[]
    {
      m := map[];
    }
  }

  /** A replacement word of the given length; random letters when no pronounceable word is found. */
  method NewWord(length: nat, rnd: Rand) returns (ok: bool, word: string)
    requires ValidLength(length)
    modifies rnd
    ensures ok ==> |word| == length && Phonology.IsLowerWord(word) && |rnd.draws| < |old(rnd.draws)|
  {
    var r := GeneratePronounceableName(length, rnd);
    if r.MaxTriesReached? {
      r := GenerateRandomString(length, rnd);
    }
    return r.Name?, if r.Name? then r.word else "";
  }

  /**
   The replacement for original. Not ok when the draws run out while words are drawn and refused; the
   program would go on drawing.
   */
  method GetReplacement(replacements: Replacements, original: string, fullInput: string, rnd: Rand)
    returns (ok: bool, replacement: string)
    modifies replacements, rnd
    ensures ok ==> && MayReturn(old(replacements.m), original, fullInput, replacement)
                   && replacements.m == old(replacements.m)[replacement := original]
    ensures ok && NeedsDraw(old(replacements.m), original) ==>
              && IsLetters(replacement) && !Contains(fullInput, replacement) && replacement !in old(replacements.m)
              && |replacement| == if |original| <= 8 then 8 else if |original| <= 255 then |original| else 255
    ensures !ok ==> replacements.m == old(replacements.m) && NeedsDraw(replacements.m, original)
  {
    var m := replacements.m;
    var keys := m.Keys;
    while keys != {}
      invariant keys <= m.Keys
      invariant forall key :: key in m && Stands(m, key, original) ==> key in keys
    {
      var rep :| rep in keys;
      if m[rep] == original && '.' !in rep {
        assert Stands(m, rep, original);
        assert m == m[rep := original];
        return true, rep;
      }
      keys := keys - {rep};
    }
    assert !Known(m, original);
    keys := m.Keys;
    while keys != {}
      invariant keys <= m.Keys
      invariant forall key :: key in m && StandsUpToCase(m, key, original) ==> key in keys
    {
      var rep :| rep in keys;
      if Fold(m[rep]) == Fold(original) && '.' !in rep {
        assert StandsUpToCase(m, rep, original);
        var matchedRep := MatchCasing(original, rep);
        replacements.m := m[matchedRep := original];
        return true, matchedRep;
      }
      keys := keys - {rep};
    }
    assert !KnownUpToCase(m, original);
    while true
      invariant replacements.m == m
      decreases |rnd.draws|
    {
      var length := if |original| > MIN_NAME_LENGTH then |original| else MIN_NAME_LENGTH;
      length := if length < MAX_NAME_LENGTH then length else MAX_NAME_LENGTH;
      var rep;
      ok, rep := NewWord(length, rnd);
      if !ok {
        return false, "";
      }
      var matchedRep := MatchCasing(original, rep);
      if !Contains(fullInput, matchedRep) && matchedRep !in m {
        assert Drawn(m, original, fullInput, matchedRep);
        DrawnIsWord(m, original, fullInput, matchedRep);
        replacements.m := m[matchedRep := original];
        return true, matchedRep;
      }
    }
  }

  /** All keys replaced by their originals in one pass over the text. */
  method UnredactText(replacements: Replacements?, text: string) returns (r: string)
    ensures r == if replacements == null then text else Unredacted(replacements.m, text)
  {
    if replacements == null || |replacements.m| == 0 {
      if replacements != null {
        NothingToRestore(replacements.m, text);
      }
      return text;
    }
    var m := replacements.m;
    var keys: seq<string> := [];
    var rest := m.Keys;
    while rest != {}
      invariant rest <= m.Keys
      invariant forall key :: key in keys <==> key in m && key !in rest && key != ""
    {
      var k :| k in rest;
      if k != "" {
        keys := keys + [k];
      }
      rest := rest - {k};
    }
    if |keys| == 0 {
      NothingToRestore(m, text);
      return text;
    }
    var sorted := SortByLength(keys);
    SameMembers(sorted, keys);
    r := ReplaceAlternatives(m, sorted, text);
  }

  /**
   The regular expression engine, for an alternation of literal keys: at every position the
   alternatives are tried in order, the first that fits is replaced, and the search goes on behind it.
   */
  method ReplaceAlternatives(m: Entries, keys: seq<string>, text: string) returns (r: string)
    requires Lists(keys, m) && LongestFirst(keys)
    ensures r == Unredacted(m, text)
  {
    hide FirstAlternative, LongestKey, Unredacted, Lists, LongestFirst;
    r := "";
    var i := 0;
    assert text[0..] == text;
    assert "" + Unredacted(m, text) == Unredacted(m, text);
    while i < |text|
      invariant i <= |text|
      invariant Unredacted(m, text) == r + Unredacted(m, text[i..])
    {
      ghost var behind := text[i..];
      OneStep(keys, m, behind);
      var n := FirstAlternative(keys, text[i..]);
      if n > 0 {
        var found := text[i..i + n];
        assert behind[..n] == found && behind[n..] == text[i + n..];
        assert r + (m[found] + Unredacted(m, text[i + n..])) == r + m[found] + Unredacted(m, text[i + n..]);
        r := r + m[found];
        i := i + n;
      } else {
        assert behind[1..] == text[i + 1..];
        assert r + ([text[i]] + Unredacted(m, text[i + 1..])) == r + [text[i]] + Unredacted(m, text[i + 1..]);
        r := r + [text[i]];
        i := i + 1;
      }
    }
    EmptyText(m);
    assert text[i..] == "";
    assert r + "" == r;
  }

  lemma OneStep(keys: seq<string>, m: Entries, text: string)
    requires Lists(keys, m) && LongestFirst(keys) && text != ""
    ensures var n := FirstAlternative(keys, text);
            && n <= |text|
            && (n > 0 ==> text[..n] in m)
            && Unredacted(m, text) == if n > 0 then m[text[..n]] + Unredacted(m, text[n..])
                                      else [text[0]] + Unredacted(m, text[1..])
  {
    OrderDoesNotMatter(keys, m, text);
  }
}
