/**
 What one filter did to a text, as a sequence of pieces: characters left alone, parts replaced through
 the table, and the special cases of mail addresses. The pieces also record the calls of
 GetReplacement, in order.
 */
module Pieces {
  import opened Text
  import opened Casing
  import opened Table
  import opened Unredaction

  datatype Piece =
    | Lit(c: char)
    | Hit(orig: string, rep: string)
    | Combo(part: string, tld: string, rep: string, suffix: string)
    | Gone(c: char)

  function SourceOf(p: Piece): string
  {
    match p
    case Lit(c) => [c]
    case Hit(orig, _) => orig
    case Combo(part, tld, _, _) => part + "." + tld
    case Gone(c) => [c]
  }

  function OutOf(p: Piece): string
  {
    match p
    case Lit(c) => [c]
    case Hit(_, rep) => rep
    case Combo(_, _, rep, suffix) => rep + "." + suffix
    case Gone(_) => ""
  }

  /** The text before. */
  function Source(ps: seq<Piece>): string
  {
    if ps == [] then "" else SourceOf(ps[0]) + Source(ps[1..])
  }

  /** The text after. */
  function Out(ps: seq<Piece>): string
  {
    if ps == [] then "" else OutOf(ps[0]) + Out(ps[1..])
  }

  lemma {:induction false} TextsConcat(a: seq<Piece>, b: seq<Piece>)
    ensures Source(a + b) == Source(a) + Source(b)
    ensures Out(a + b) == Out(a) + Out(b)
  {
    hide *;
    if a == [] {
      assert a + b == b;
      NoTexts();
    } else {
      assert (a + b)[0] == a[0] && (a + b)[1..] == a[1..] + b;
      FirstText(a + b);
      FirstText(a);
      TextsConcat(a[1..], b);
    }
  }

  lemma NoTexts()
    ensures Source([]) == "" && Out([]) == ""
  {
  }

  lemma FirstText(ps: seq<Piece>)
    requires ps != []
    ensures Source(ps) == SourceOf(ps[0]) + Source(ps[1..])
    ensures Out(ps) == OutOf(ps[0]) + Out(ps[1..])
  {
  }

  lemma OneText(p: Piece)
    ensures Source([p]) == SourceOf(p) && Out([p]) == OutOf(p)
  {
  }

  /** A text that is left as it is. */
  function Lits(text: string): (ps: seq<Piece>)
    ensures |ps| == |text| && forall i :: 0 <= i < |ps| ==> ps[i] == Lit(text[i])
  {
    seq(|text|, i requires 0 <= i < |text| => Lit(text[i]))
  }

  lemma {:induction false} LitsTexts(text: string)
    ensures Source(Lits(text)) == text && Out(Lits(text)) == text
  {
    if text != "" {
      assert Lits(text)[1..] == Lits(text[1..]);
      LitsTexts(text[1..]);
      assert [text[0]] + text[1..] == text;
    }
  }

  /** The table after the calls for one piece, and for all. */
  function Put(m: Entries, p: Piece): Entries
  {
    match p
    case Lit(_) => m
    case Hit(orig, rep) => m[rep := orig]
    case Combo(part, tld, rep, suffix) => m[rep := part][rep + "." + suffix := part + "." + tld]
    case Gone(_) => m
  }

  function After(m: Entries, ps: seq<Piece>): Entries
    decreases |ps|
  {
    if ps == [] then m else After(Put(m, ps[0]), ps[1..])
  }

  /** What GetReplacement was asked for, and what it returned. */
  predicate Asks(p: Piece) { p.Hit? || p.Combo? }

  function Asked(p: Piece): string
    requires Asks(p)
  {
    if p.Hit? then p.orig else p.part
  }

  /** Every replacement is one that GetReplacement may return on the table as it is by then. */
  ghost predicate Calls(m: Entries, ps: seq<Piece>, fullInput: string)
    decreases |ps|
  {
    ps != [] ==>
      && (Asks(ps[0]) ==> MayReturn(m, Asked(ps[0]), fullInput, ps[0].rep))
      && Calls(Put(m, ps[0]), ps[1..], fullInput)
  }

  /** Drawn words differ from all keys up to case, and their originals are not too long. */
  ghost predicate SeparatedCalls(m: Entries, ps: seq<Piece>)
    decreases |ps|
  {
    ps != [] ==>
      && (Asks(ps[0]) ==> Separated(m, Asked(ps[0]), ps[0].rep))
      && SeparatedCalls(Put(m, ps[0]), ps[1..])
  }

  lemma {:induction false} CallsConcat(m: Entries, a: seq<Piece>, b: seq<Piece>, fullInput: string)
    ensures After(m, a + b) == After(After(m, a), b)
    ensures Calls(m, a + b, fullInput) <==> Calls(m, a, fullInput) && Calls(After(m, a), b, fullInput)
    ensures SeparatedCalls(m, a + b) <==> SeparatedCalls(m, a) && SeparatedCalls(After(m, a), b)
    decreases |a|
  {
    if a == [] {
      assert a + b == b;
    } else {
      assert (a + b)[0] == a[0] && (a + b)[1..] == a[1..] + b;
      CallsConcat(Put(m, a[0]), a[1..], b, fullInput);
    }
  }

  /** Every entry of m is still there in the larger table. */
  ghost predicate Extends(m: Entries, larger: Entries)
  {
    forall key :: key in m ==> key in larger && larger[key] == m[key]
  }

  lemma SelfExtends(m: Entries)
    ensures Extends(m, m)
  {
  }

  /** Only replacements without a suffix. */
  predicate Plain(ps: seq<Piece>)
  {
    forall i :: 0 <= i < |ps| ==> ps[i].Lit? || ps[i].Hit?
  }

  predicate EntryIn(m: Entries, p: Piece)
  {
    p.Hit? ==> p.rep in m && m[p.rep] == p.orig
  }

  /** The table knows every replacement that was made. */
  predicate EntriesIn(m: Entries, ps: seq<Piece>)
  {
    forall i :: 0 <= i < |ps| ==> EntryIn(m, ps[i])
  }

  lemma StepKeeps(m: Entries, p: Piece, fullInput: string)
    requires Stable(m) && LetterKeys(m) && p.Hit?
    requires MayReturn(m, p.orig, fullInput, p.rep) && Separated(m, p.orig, p.rep)
    ensures Stable(Put(m, p)) && LetterKeys(Put(m, p)) && Extends(m, Put(m, p)) && EntryIn(Put(m, p), p)
  {
    hide Stable, Separated;
    KeepsStable(m, p.orig, fullInput, p.rep);
    StepIsCasedLike(m, p.orig, fullInput, p.rep);
    if NeedsDraw(m, p.orig) {
      DrawnIsWord(m, p.orig, fullInput, p.rep);
    }
  }

  /**
   On a stable table of letter keys, no call of a whole filter run overwrites an entry, and the table
   stays stable: all replacements made can be found in it afterwards.
   */
  lemma {:induction false} CallsKeepStable(m: Entries, ps: seq<Piece>, fullInput: string)
    requires Stable(m) && LetterKeys(m) && Plain(ps)
    requires Calls(m, ps, fullInput) && SeparatedCalls(m, ps)
    ensures Stable(After(m, ps)) && LetterKeys(After(m, ps))
    ensures Extends(m, After(m, ps)) && EntriesIn(After(m, ps), ps)
    decreases |ps|
  {
    hide Stable, MayReturn, Separated, LetterKeys;
    if ps != [] {
      if ps[0].Hit? {
        StepKeeps(m, ps[0], fullInput);
      }
      CallsKeepStable(Put(m, ps[0]), ps[1..], fullInput);
      assert EntryIn(After(m, ps), ps[0]);
      assert forall i :: 1 <= i < |ps| ==> ps[i] == ps[1..][i - 1];
    }
  }

  lemma ExtendsKnows(m: Entries, larger: Entries, ps: seq<Piece>)
    requires Extends(m, larger) && EntriesIn(m, ps)
    ensures EntriesIn(larger, ps)
  {
  }

  /** No text is a key up to case that occurs in the given one. */
  ghost predicate AvoidsUpToCase(key: string, text: string)
  {
    !Contains(Fold(text), Fold(key))
  }

  ghost predicate KeysAvoid(m: Entries, text: string)
  {
    forall key :: key in m ==> AvoidsUpToCase(key, text)
  }

  /** The words drawn do not occur in the text, not even up to case. */
  ghost predicate DrawsAvoid(m: Entries, ps: seq<Piece>, text: string)
    decreases |ps|
  {
    ps != [] ==>
      && (Asks(ps[0]) && NeedsDraw(m, Asked(ps[0])) ==> AvoidsUpToCase(ps[0].rep, text))
      && DrawsAvoid(Put(m, ps[0]), ps[1..], text)
  }

  lemma StepAvoids(m: Entries, p: Piece, fullInput: string, text: string)
    requires p.Hit? && KeysAvoid(m, text) && MayReturn(m, p.orig, fullInput, p.rep)
    requires NeedsDraw(m, p.orig) ==> AvoidsUpToCase(p.rep, text)
    ensures KeysAvoid(Put(m, p), text)
  {
    if !Known(m, p.orig) && KnownUpToCase(m, p.orig) {
      var key :| key in m && StandsUpToCase(m, key, p.orig) && p.rep == MatchCased(p.orig, key);
      MatchCasedKeepsLetters(p.orig, key);
      assert AvoidsUpToCase(key, text);
    }
  }

  /**
   If neither the keys at first nor the words drawn later occur in a text up to case, no key of the
   final table occurs in it, whatever case variants were added.
   */
  lemma {:induction false} FinalKeysAvoid(m: Entries, ps: seq<Piece>, fullInput: string, text: string)
    requires Plain(ps) && Calls(m, ps, fullInput) && KeysAvoid(m, text) && DrawsAvoid(m, ps, text)
    ensures KeysAvoid(After(m, ps), text)
    ensures NoKeyIn(After(m, ps), text)
    decreases |ps|
  {
    hide MayReturn, AvoidsUpToCase;
    if ps != [] {
      if ps[0].Hit? {
        StepAvoids(m, ps[0], fullInput, text);
      }
      FinalKeysAvoid(Put(m, ps[0]), ps[1..], fullInput, text);
    } else {
      AvoidingKeys(m, text);
    }
  }

  lemma AvoidingKeys(m: Entries, text: string)
    requires KeysAvoid(m, text)
    ensures NoKeyIn(m, text)
  {
    forall key | key in m && key != ""
      ensures !Contains(text, key)
    {
      assert AvoidsUpToCase(key, text);
      if Contains(text, key) {
        var i :| 0 <= i <= |text| && OccursAt(text, key, i);
        FoldSlice(text, i, i + |key|);
        assert OccursAt(Fold(text), Fold(key), i);
        assert Contains(Fold(text), Fold(key));
      }
    }
  }

  /** The answer to this call is the key of another casing, adapted. */
  ghost predicate IsAdapted(m: Entries, p: Piece)
  {
    Asks(p) && !Known(m, Asked(p)) && KnownUpToCase(m, Asked(p))
  }

  ghost predicate Occurs(text: string, key: string)
  {
    key != "" && Contains(text, key)
  }

  /** No adapted key occurs in the text. */
  ghost predicate AdaptedAvoid(m: Entries, ps: seq<Piece>, text: string)
    decreases |ps|
  {
    ps != [] ==>
      && (IsAdapted(m, ps[0]) ==> !Occurs(text, ps[0].rep))
      && AdaptedAvoid(Put(m, ps[0]), ps[1..], text)
  }

  lemma NoKeyInWith(m: Entries, key: string, original: string, text: string)
    ensures NoKeyIn(m[key := original], text) <==> NoKeyIn(m - {key}, text) && !Occurs(text, key)
  {
    var more := m[key := original];
    if NoKeyIn(more, text) {
      assert key in more;
      assert forall k :: k in m - {key} ==> k in more;
    }
  }

  lemma CheckedCall(m: Entries, p: Piece, fullInput: string, text: string)
    requires p.Hit? && MayReturn(m, p.orig, fullInput, p.rep)
    requires NoKeyIn(m, text) && Contains(fullInput, text)
    ensures NoKeyIn(Put(m, p), text) <==> (IsAdapted(m, p) ==> !Occurs(text, p.rep))
  {
    hide Contains;
    assert forall key :: key in m - {p.rep} ==> key in m;
    NoKeyInWith(m, p.rep, p.orig, text);
    if NeedsDraw(m, p.orig) && Contains(text, p.rep) {
      DrawnIsNew(m, p.orig, fullInput, p.rep);
      ContainsFurther(fullInput, text, p.rep);
    }
  }

  lemma {:induction false} KeysStay(m: Entries, ps: seq<Piece>, text: string)
    requires NoKeyIn(After(m, ps), text)
    ensures NoKeyIn(m, text)
    decreases |ps|
  {
    hide Contains;
    if ps != [] {
      KeysStay(Put(m, ps[0]), ps[1..], text);
      assert forall key :: key in m ==> key in Put(m, ps[0]);
    }
  }

  /**
   A text that is part of the input and holds no key at first, holds none of the final table if and
   only if no adapted key occurs in it: of the words drawn the code checks that itself.
   */
  lemma {:induction false} CheckedKeysAvoidIff(m: Entries, ps: seq<Piece>, fullInput: string, text: string)
    requires Plain(ps) && Calls(m, ps, fullInput)
    requires NoKeyIn(m, text) && Contains(fullInput, text)
    ensures NoKeyIn(After(m, ps), text) <==> AdaptedAvoid(m, ps, text)
    decreases |ps|
  {
    hide MayReturn, Contains, IsAdapted, Occurs, NoKeyIn;
    if ps != [] {
      var p := ps[0];
      if p.Hit? {
        CheckedCall(m, p, fullInput, text);
      } else {
        LitIsNotAdapted(m, p);
      }
      if NoKeyIn(Put(m, p), text) {
        CheckedKeysAvoidIff(Put(m, p), ps[1..], fullInput, text);
      } else if NoKeyIn(After(m, ps), text) {
        KeysStay(Put(m, p), ps[1..], text);
      }
    }
  }

  lemma LitIsNotAdapted(m: Entries, p: Piece)
    requires p.Lit?
    ensures !IsAdapted(m, p) && Put(m, p) == m
  {
  }

  /** The table is stable before and after every call. */
  ghost predicate StableThroughout(m: Entries, ps: seq<Piece>)
    decreases |ps|
  {
    Stable(m) && (ps != [] ==> StableThroughout(Put(m, ps[0]), ps[1..]))
  }

  /** A whole run keeps the table stable if and only if every word it draws is separated from all keys. */
  lemma {:induction false} StableThroughoutIff(m: Entries, ps: seq<Piece>, fullInput: string)
    requires Stable(m) && Plain(ps) && Calls(m, ps, fullInput)
    ensures StableThroughout(m, ps) <==> SeparatedCalls(m, ps)
    decreases |ps|
  {
    hide Stable, MayReturn, NeedsDraw, NewUpToCase;
    if ps != [] {
      if ps[0].Hit? {
        KeepsStableIff(m, ps[0].orig, fullInput, ps[0].rep);
      }
      if Stable(Put(m, ps[0])) {
        StableThroughoutIff(Put(m, ps[0]), ps[1..], fullInput);
      }
    }
  }
}
