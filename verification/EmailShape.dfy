/**
 What a redacted address still shows: its at sign, its dots and its empty labels; and when a match
 loses characters.
 */
module EmailShape {
  import opened Text
  import opened Table
  import opened Unredaction
  import opened Pieces
  import opened RoundTrip
  import opened EmailScan
  import opened EmailLaws
  import opened SuffixLaws

  /** Replacements are words. */
  predicate WordReps(ps: seq<Piece>)
  {
    forall i :: 0 <= i < |ps| && Asks(ps[i]) ==> ps[i].rep != "" && IsLetters(ps[i].rep)
  }

  /** One of the pieces replaces the label by the word. */
  predicate Answers(ps: seq<Piece>, part: string, word: string)
  {
    exists j :: 0 <= j < |ps| && Asks(ps[j]) && Asked(ps[j]) == part && ps[j].rep == word
  }

  predicate LabelTo(ps: seq<Piece>, part: string, word: string)
  {
    if part == "" then word == "" else word != "" && Answers(ps, part, word)
  }

  /** As many labels, the same ones empty, and each of the others replaced where it stands. */
  predicate RedactedTo(ps: seq<Piece>, labels: seq<string>, words: seq<string>)
  {
    |labels| == |words| && forall i :: 0 <= i < |labels| ==> LabelTo(ps, labels[i], words[i])
  }

  lemma AnswersMore(a: seq<Piece>, ps: seq<Piece>, b: seq<Piece>, part: string, word: string)
    requires LabelTo(ps, part, word)
    ensures LabelTo(a + ps + b, part, word)
  {
    if part != "" {
      var j :| 0 <= j < |ps| && Asks(ps[j]) && Asked(ps[j]) == part && ps[j].rep == word;
      assert (a + ps + b)[|a| + j] == ps[j];
    }
  }

  lemma RedactedMore(a: seq<Piece>, ps: seq<Piece>, b: seq<Piece>, labels: seq<string>, words: seq<string>)
    requires RedactedTo(ps, labels, words)
    ensures RedactedTo(a + ps + b, labels, words)
  {
    hide LabelTo;
    forall i | 0 <= i < |labels|
      ensures LabelTo(a + ps + b, labels[i], words[i])
    {
      AnswersMore(a, ps, b, labels[i], words[i]);
    }
  }

  lemma RedactedSnoc(a: seq<Piece>, p: Piece, b: seq<Piece>, labels: seq<string>, words: seq<string>,
                     x: string, y: string)
    requires RedactedTo(a, labels, words) && LabelTo(b, x, y)
    ensures RedactedTo(a + [p] + b, labels + [x], words + [y])
  {
    hide LabelTo;
    RedactedMore([], a, [p] + b, labels, words);
    assert [] + a + ([p] + b) == a + [p] + b;
    AnswersMore(a + [p], b, [], x, y);
    assert a + [p] + b + [] == a + [p] + b;
  }

  lemma WordRepsOf(a: seq<Piece>, p: Piece, b: seq<Piece>)
    requires WordReps(a + [p] + b)
    ensures WordReps(a) && WordReps(b)
  {
    var ps := a + [p] + b;
    assert forall i :: 0 <= i < |a| ==> a[i] == ps[i];
    assert forall i :: 0 <= i < |b| ==> b[i] == ps[|a| + 1 + i];
  }

  lemma LabelShape(part: string, ps: seq<Piece>)
    requires |ps| == LabelCount(part) && (part != "" ==> ps[0].Hit? && ps[0].orig == part) && WordReps(ps)
    ensures Split(Out(ps)) == [Out(ps)] && LabelTo(ps, part, Out(ps)) && '@' !in Out(ps)
  {
    if part != "" {
      assert ps == [ps[0]];
      OneText(ps[0]);
      var rep := ps[0].rep;
      forall i | 0 <= i < |rep|
        ensures rep[i] != '.' && rep[i] != '@'
      {
        assert IsLetter(rep[i]);
      }
      SplitWord(rep);
    }
  }

  /** Redacted labels have the same dots and the same empty labels; each of the others is replaced in its place. */
  lemma {:induction false} LabelsKeepShape(labels: seq<string>, ps: seq<Piece>)
    requires labels != [] && Labelled(labels, ps) && WordReps(ps)
    ensures RedactedTo(ps, labels, Split(Out(ps))) && '@' !in Out(ps)
    decreases |labels|
  {
    hide *;
    if |labels| == 1 {
      OnlyLabel(labels, ps);
      LabelShape(labels[0], ps);
      OneAndOne(ps, labels, Split(Out(ps)));
    } else {
      var k, dot := |labels| - 1, Lit('.');
      LabelledParts(labels, ps);
      var j := PieceCount(labels[..k]);
      SplitAround(ps, j);
      LabelsLeft(labels[k]);
      var a, b := ps[..j], ps[j + 1..];
      WordRepsOf(a, dot, b);
      LabelsKeepShape(labels[..k], a);
      LabelShape(labels[k], b);
      ThreeSources(a, dot, b);
      DotText();
      SplitBesideDot(Out(a), Out(b));
      RedactedSnoc(a, dot, b, labels[..k], Split(Out(a)), labels[k], Out(b));
      assert labels == labels[..k] + [labels[k]];
    }
  }

  lemma OnlyLabel(labels: seq<string>, ps: seq<Piece>)
    requires |labels| == 1 && Labelled(labels, ps)
    ensures |ps| == LabelCount(labels[0]) && (labels[0] != "" ==> ps[0].Hit? && ps[0].orig == labels[0])
  {
  }

  lemma OneAndOne(ps: seq<Piece>, a: seq<string>, b: seq<string>)
    requires |a| == |b| == 1 && LabelTo(ps, a[0], b[0])
    ensures RedactedTo(ps, a, b)
  {
  }

  lemma DotText()
    ensures OutOf(Lit('.')) == "."
  {
  }

  /** The labels in their places, and behind them the given ones. */
  predicate DomainShape(ps: seq<Piece>, labels: seq<string>, tail: seq<string>, out: seq<string>)
  {
    |out| >= |labels| && RedactedTo(ps, labels, out[..|labels|]) && out[|labels|..] == tail
  }

  /** The domain has two labels or more, and the last one consists of letters. */
  predicate HasTLD(labels: seq<string>)
  {
    |labels| >= 2 && labels[|labels| - 1] != "" && IsLetters(labels[|labels| - 1])
  }

  /**
   A redacted domain, label by label. If there are at least two labels and the last one consists of letters, it
   stays where neither its lower-case form nor the asterisk is a key of the map, and gives way to the value of the
   former, or else of the latter; the label before it is then recorded together with it. All other labels, and in
   any other case all labels, are replaced in their places.
   */
  lemma DomainKeepsShape(suffixes: Suffixes, domain: string, ps: seq<Piece>)
    requires DomainPieces(suffixes, domain, ps) && WordReps(ps)
    ensures var all, out := Split(domain), Split(Out(ps));
            var k := |all| - 1;
            if !HasTLD(all) then RedactedTo(ps, all, out) && Plain(ps)
            else if Fold(all[k]) !in suffixes && "*" !in suffixes then
              DomainShape(ps, all[..k], [all[k]], out) && Plain(ps)
            else
              var suffix := suffixes[if Fold(all[k]) in suffixes then Fold(all[k]) else "*"];
              && DomainShape(ps, all[..k], Split(suffix), out)
              && ps != [] && ps[|ps| - 1] == Combo(all[k - 1], all[k], out[k - 1], suffix)
              && Plain(ps[..|ps| - 1])
  {
    hide Labelled, PieceCount, Split, Out, WordReps, Fold, RedactedTo, Plain;
    var all := Split(domain);
    var k := |all| - 1;
    if !HasTLD(all) {
      LabelsKeepShape(all, ps);
      LabelledIsPlain(all, ps);
    } else if Fold(all[k]) !in suffixes && "*" !in suffixes {
      KeptKeepsShape(all[..k], all[k], ps);
      NoDotInLetters(all[k]);
      SplitWord(all[k]);
    } else {
      var suffix := suffixes[if Fold(all[k]) in suffixes then Fold(all[k]) else "*"];
      ReplacedKeepsShape(all[..k], suffix, ps);
    }
  }

  lemma NoDotInLetters(s: string)
    requires IsLetters(s)
    ensures '.' !in s
  {
  }

  lemma {:induction false} LabelledIsPlain(labels: seq<string>, ps: seq<Piece>)
    requires labels != [] && Labelled(labels, ps)
    ensures Plain(ps)
    decreases |labels|
  {
    if |labels| == 1 {
      OnlyLabel(labels, ps);
    } else {
      var k := |labels| - 1;
      LabelledParts(labels, ps);
      var j := PieceCount(labels[..k]);
      LabelledIsPlain(labels[..k], ps[..j]);
      forall i | 0 <= i < |ps|
        ensures ps[i].Lit? || ps[i].Hit?
      {
        assert i < j ==> ps[i] == ps[..j][i];
      }
    }
  }

  lemma KeptKeepsShape(labels: seq<string>, tld: string, ps: seq<Piece>)
    requires labels != [] && |ps| >= PieceCount(labels) && WordReps(ps)
    requires Labelled(labels, ps[..PieceCount(labels)]) && ps[PieceCount(labels)..] == Lits("." + tld)
    ensures DomainShape(ps, labels, Split(tld), Split(Out(ps))) && Plain(ps)
  {
    hide *;
    var n := PieceCount(labels);
    var front := ps[..n];
    assert ps == front + ps[n..];
    PartHasWords(ps, n);
    LabelsKeepShape(labels, front);
    LabelledIsPlain(labels, front);
    PlainWithLits(front, "." + tld);
    TextsConcat(front, ps[n..]);
    LitsTexts("." + tld);
    RedactedMore([], front, ps[n..], labels, Split(Out(front)));
    assert [] + front + ps[n..] == ps;
    BehindLabels(ps, labels, Out(front), tld);
    Associates(Out(front), ".", tld);
  }

  lemma PlainWithLits(ps: seq<Piece>, text: string)
    requires Plain(ps)
    ensures Plain(ps + Lits(text))
  {
  }

  lemma ReplacedKeepsShape(labels: seq<string>, s: string, ps: seq<Piece>)
    requires labels != [] && ps != [] && WordReps(ps)
    requires var combo := ps[|ps| - 1];
             && combo.Combo? && combo.suffix == s && combo.part == labels[|labels| - 1]
             && Labelled(labels, ps[|ps| - 1 := Hit(combo.part, combo.rep)])
    ensures var out := Split(Out(ps));
            && DomainShape(ps, labels, Split(s), out) && Plain(ps[..|ps| - 1])
            && ps[|ps| - 1].rep == out[|labels| - 1]
  {
    hide *;
    var n := |ps| - 1;
    var front, combo := ps[..n], ps[n];
    var hit := Hit(combo.part, combo.rep);
    var qs := ps[n := hit];
    assert ps == front + [combo] && qs == front + [hit];
    StillWords(ps, hit);
    LabelsKeepShape(labels, qs);
    LabelledIsPlain(labels, qs);
    LastWord(labels, qs);
    FrontIsPlain(front, hit);
    TextsConcat(front, [combo]);
    TextsConcat(front, [hit]);
    OneText(combo);
    OneText(hit);
    ComboOut(combo);
    SameAnswers(ps, hit, labels, Split(Out(qs)));
    BehindLabels(ps, labels, Out(qs), s);
    Associates(Out(front), combo.rep, "." + s);
    Associates(Out(qs), ".", s);
    SameNumber(qs, labels, Split(Out(qs)));
  }

  lemma ComboOut(p: Piece)
    requires p.Combo?
    ensures OutOf(p) == p.rep + ("." + p.suffix) && OutOf(Hit(p.part, p.rep)) == p.rep
  {
  }

  lemma PartHasWords(ps: seq<Piece>, n: nat)
    requires n <= |ps| && WordReps(ps)
    ensures WordReps(ps[..n]) && WordReps(ps[n..])
  {
  }

  lemma StillWords(ps: seq<Piece>, hit: Piece)
    requires ps != [] && WordReps(ps) && ps[|ps| - 1].Combo? && hit.Hit? && hit.rep == ps[|ps| - 1].rep
    ensures WordReps(ps[|ps| - 1 := hit])
  {
  }

  lemma FrontIsPlain(front: seq<Piece>, hit: Piece)
    requires Plain(front + [hit])
    ensures Plain(front)
  {
    assert forall i :: 0 <= i < |front| ==> (front + [hit])[i] == front[i];
  }

  /** The last label is what the last piece made of it. */
  lemma LastWord(labels: seq<string>, ps: seq<Piece>)
    requires labels != [] && Labelled(labels, ps) && WordReps(ps) && ps != [] && ps[|ps| - 1].Hit?
    ensures Split(Out(ps))[|Split(Out(ps))| - 1] == ps[|ps| - 1].rep
  {
    hide *;
    var k, n := |labels| - 1, |ps| - 1;
    if k == 0 {
      OnlyLabel(labels, ps);
      LabelsLeft(labels[0]);
      assert ps == [ps[0]];
      OneText(ps[0]);
      RepOf(ps[0]);
      LabelShape(labels[0], ps);
    } else {
      LabelledParts(labels, ps);
      var j := PieceCount(labels[..k]);
      SplitAround(ps, j);
      LabelsLeft(labels[k]);
      var a, b := ps[..j], ps[j + 1..];
      LastIsHit(ps, j);
      WordRepsOf(a, Lit('.'), b);
      LabelShape(labels[k], b);
      ThreeSources(a, Lit('.'), b);
      DotText();
      SplitBesideDot(Out(a), Out(b));
      assert b == [ps[n]];
      OneText(ps[n]);
      RepOf(ps[n]);
    }
  }

  lemma SameNumber(ps: seq<Piece>, labels: seq<string>, words: seq<string>)
    requires RedactedTo(ps, labels, words)
    ensures |labels| == |words|
  {
  }

  lemma LastIsHit(ps: seq<Piece>, j: nat)
    requires j < |ps| && ps[j] == Lit('.') && ps[|ps| - 1].Hit?
    ensures ps[j + 1..] != []
  {
  }

  lemma RepOf(p: Piece)
    requires p.Hit?
    ensures OutOf(p) == p.rep
  {
  }

  lemma SameAnswers(ps: seq<Piece>, hit: Piece, labels: seq<string>, words: seq<string>)
    requires ps != [] && ps[|ps| - 1].Combo? && hit == Hit(ps[|ps| - 1].part, ps[|ps| - 1].rep)
    requires RedactedTo(ps[|ps| - 1 := hit], labels, words)
    ensures RedactedTo(ps, labels, words)
  {
    var qs := ps[|ps| - 1 := hit];
    forall i | 0 <= i < |labels|
      ensures LabelTo(ps, labels[i], words[i])
    {
      assert LabelTo(qs, labels[i], words[i]);
      if labels[i] != "" {
        var j :| 0 <= j < |qs| && Asks(qs[j]) && Asked(qs[j]) == labels[i] && qs[j].rep == words[i];
        assert Asks(ps[j]);
      }
    }
  }

  lemma BehindLabels(ps: seq<Piece>, labels: seq<string>, front: string, tail: string)
    requires RedactedTo(ps, labels, Split(front))
    ensures DomainShape(ps, labels, Split(tail), Split(front + "." + tail))
    ensures Split(front + "." + tail) == Split(front) + Split(tail)
  {
    hide Split, LabelTo;
    SplitBesideDot(front, tail);
    var out := Split(front) + Split(tail);
    assert out[..|labels|] == Split(front) && out[|labels|..] == Split(tail);
  }

  /**
   A redacted address keeps its at sign, the dots of its local part, and its empty labels; its domain
   begins behind the only at sign.
   */
  lemma AddressKeepsShape(suffixes: Suffixes, local: string, domain: string, ps: seq<Piece>)
    requires AddressPieces(suffixes, local, domain, ps) && WordReps(ps)
    ensures var n := PieceCount(Split(local));
            && Out(ps) == Out(ps[..n]) + "@" + Out(ps[n + 1..])
            && '@' !in Out(ps[..n]) && RedactedTo(ps[..n], Split(local), Split(Out(ps[..n])))
            && DomainPieces(suffixes, domain, ps[n + 1..]) && WordReps(ps[n + 1..])
  {
    hide Labelled, PieceCount, Split, DomainPieces, WordReps, Out;
    var n := PieceCount(Split(local));
    assert ps == ps[..n] + [ps[n]] + ps[n + 1..];
    WordRepsOf(ps[..n], ps[n], ps[n + 1..]);
    LabelsKeepShape(Split(local), ps[..n]);
    ThreeSources(ps[..n], ps[n], ps[n + 1..]);
  }

  /** Something of the match is dropped. */
  predicate Loses(ps: seq<Piece>)
  {
    exists i :: 0 <= i < |ps| && ps[i].Gone?
  }

  /** A word character in a local part begins an address, when there is none right before it. */
  lemma WordBegins(text: string, i: nat, k: nat)
    requires MatchAt(text, i) && i < k < LocalEnd(text, i) && IsWord(text[k]) && !IsWord(text[k - 1])
    ensures MatchAt(text[i..MatchEnd(text, i)], k - i)
  {
    hide MatchAt, LocalEnd, MatchEnd, IsWord;
    MatchParts(text, i);
    var found := text[i..MatchEnd(text, i)];
    assert found[k - i] == text[k] && found[k - i - 1] == text[k - 1];
    MatchesWithin(text, i, k);
  }

  lemma {:induction false} FirstWord(text: string, i: nat, k: nat) returns (j: nat)
    requires i < k < |text| && IsWord(text[k]) && !IsWord(text[i])
    ensures i < j <= k && IsWord(text[j]) && !IsWord(text[j - 1])
  {
    if IsWord(text[k - 1]) {
      j := FirstWord(text, i, k - 1);
    } else {
      j := k;
    }
  }

  /** There is a word character in the local part of the match. */
  predicate HasWord(text: string, i: nat)
    requires MatchAt(text, i)
  {
    exists k :: i <= k < LocalEnd(text, i) && IsWord(text[k])
  }

  /** Without a word character in the local part, no address is found in the match by itself. */
  lemma NothingFound(text: string, i: nat)
    requires MatchAt(text, i) && !HasWord(text, i)
    ensures var found := text[i..MatchEnd(text, i)]; InnerStart(found, 0) == |found|
  {
    hide LocalEnd, DomainRun, DotRuns, MatchEnd, IsLocalChar;
    var found := text[i..MatchEnd(text, i)];
    forall s | 0 <= s < |found|
      ensures !MatchAt(found, s)
    {
      if MatchAt(found, s) {
        InnerAt(text, i, s);
        NoBoundary(text, i, s);
      }
    }
  }

  lemma NoBoundary(text: string, i: nat, s: nat)
    requires MatchAt(text, i) && !HasWord(text, i) && i + s < LocalEnd(text, i)
    ensures !Boundary(text[i..MatchEnd(text, i)], s)
  {
  }

  lemma NoGoneInTidy(suffixes: Suffixes, ps: seq<Piece>)
    requires Tidy(suffixes, ps)
    ensures !Loses(ps)
  {
    forall i | 0 <= i < |ps|
      ensures !ps[i].Gone?
    {
      assert InPlace(suffixes, ps, i);
    }
  }

  lemma GoneInFront(suffixes: Suffixes, found: string, ps: seq<Piece>)
    requires MatchPieces(suffixes, found, ps) && 0 < InnerStart(found, 0) < |found|
    ensures Loses(ps)
  {
    hide LocalEnd, DomainRun, DotRuns, Boundary, AddressPieces, AddressCount;
    assert ps[..InnerStart(found, 0)][0].Gone?;
  }

  /**
   A match is redacted by applying the expression to it once more, without the text before it. It loses
   characters exactly if it begins with no word character and has one further on in its local part.
   */
  lemma LosesIff(suffixes: Suffixes, text: string, i: nat, ps: seq<Piece>)
    requires MatchAt(text, i) && MatchPieces(suffixes, text[i..MatchEnd(text, i)], ps)
    ensures Loses(ps) <==> !IsWord(text[i]) && HasWord(text, i)
  {
    hide LocalEnd, DomainRun, DotRuns, Boundary, AddressPieces, AddressCount, Tidy, IsWord, Loses;
    var found := text[i..MatchEnd(text, i)];
    if IsWord(text[i]) {
      WholeMatch(suffixes, text, i, ps);
      NoGoneInTidy(suffixes, ps);
    } else if HasWord(text, i) {
      var k :| i <= k < LocalEnd(text, i) && IsWord(text[k]);
      var j := FirstWord(text, i, k);
      WordBegins(text, i, j);
      InnerIsLess(text, i);
      GoneInFront(suffixes, found, ps);
    } else {
      NothingFound(text, i);
      LitsAreTidy(suffixes, found);
      NoGoneInTidy(suffixes, ps);
    }
  }

  /** The character stands in no piece but those dropped. */
  predicate OnlyInGone(c: char, ps: seq<Piece>)
  {
    forall i :: 0 <= i < |ps| ==> ps[i].Gone? || (!ps[i].Combo? && c !in SourceOf(ps[i]))
  }

  ghost predicate NoOriginalHas(c: char, m: Entries)
  {
    forall key :: key in m ==> c !in m[key]
  }

  lemma {:induction false} OriginalsWithout(c: char, m: Entries, ps: seq<Piece>)
    requires NoOriginalHas(c, m) && OnlyInGone(c, ps)
    ensures NoOriginalHas(c, After(m, ps))
    decreases |ps|
  {
    if ps != [] {
      OriginalsWithout(c, Put(m, ps[0]), ps[1..]);
    }
  }

  lemma {:induction false} OutWithout(c: char, m: Entries, ps: seq<Piece>)
    requires !IsLetter(c) && OnlyInGone(c, ps) && LabelsIn(m, ps)
    ensures c !in Out(ps)
  {
    if ps == [] {
      NoTexts();
    } else {
      FirstText(ps);
      LabelsInRest(m, ps);
      OutWithout(c, m, ps[1..]);
      assert LabelIn(m, ps[0]);
      if ps[0].Hit? {
        LettersWithout(c, ps[0].rep);
      }
    }
  }

  lemma LettersWithout(c: char, word: string)
    requires !IsLetter(c) && IsLetters(word)
    ensures c !in word
  {
  }

  lemma {:induction false} PassWithout(c: char, m: Entries, text: string)
    requires c !in text && NoOriginalHas(c, m)
    ensures c !in Unredacted(m, text)
  {
    if text == "" {
      EmptyText(m);
    } else {
      UnredactedHead(m, text);
      var n := LongestKey(m, text, |text|);
      assert text[0] in text;
      PassWithout(c, m, text[Head(m, text)..]);
    }
  }

  /** What stands only in dropped parts does not come back. */
  lemma LostForGood(c: char, m: Entries, ps: seq<Piece>, fullInput: string)
    requires !IsLetter(c) && OnlyInGone(c, ps) && NoOriginalHas(c, m)
    requires Stable(m) && OneKeyEach(m) && LetterKeys(m) && Calls(m, ps, fullInput) && SeparatedCalls(m, ps)
    ensures c !in Out(ps) && c !in Unredacted(After(m, ps), Out(ps))
  {
    hide *;
    LedgerStarts(m);
    LedgerKept(m, [], ps, fullInput);
    assert [] + ps == ps;
    LedgerHasLabels(After(m, ps), ps);
    OutWithout(c, After(m, ps), ps);
    OriginalsWithout(c, m, ps);
    PassWithout(c, After(m, ps), Out(ps));
  }

  lemma {:induction false} SourceParts(c: char, ps: seq<Piece>, i: nat)
    requires c !in Source(ps) && i < |ps|
    ensures c !in SourceOf(ps[i])
  {
    FirstText(ps);
    if i > 0 {
      SourceParts(c, ps[1..], i - 1);
    }
  }

  lemma TidyWithout(c: char, ps: seq<Piece>)
    requires Tidy(map[], ps) && c !in Source(ps)
    ensures OnlyInGone(c, ps)
  {
    TidyIsPlain(ps);
    forall i | 0 <= i < |ps|
      ensures c !in SourceOf(ps[i])
    {
      SourceParts(c, ps, i);
    }
  }

  lemma OnlyInGoneConcat(c: char, a: seq<Piece>, b: seq<Piece>)
    requires OnlyInGone(c, a) && OnlyInGone(c, b)
    ensures OnlyInGone(c, a + b)
  {
  }

  lemma FirstMatch(text: string)
    requires text == "a@b+c@d"
    ensures MatchAt(text, 0) && MatchEnd(text, 0) == 3 && text[0..3] == "a@b" && IsWord(text[0])
  {
    LocalEndIs(text, 0, 1);
    DomainRunIs(text, 2, 3);
  }

  lemma FirstAddress(text: string, ps: seq<Piece>)
    requires text == "a@b+c@d" && EmailScans(map[], text, 0, ps)
    ensures exists n :: 0 <= n <= |ps| && OnlyInGone('+', ps[..n]) && EmailScans(map[], text, 3, ps[n..])
  {
    hide LocalEnd, MatchAt, MatchEnd, InnerStart, MatchPieces, MatchCount, Tidy, Source, OnlyInGone;
    FirstMatch(text);
    var n := MatchCount(map[], text[0..3]);
    WholeMatch(map[], text, 0, ps[..n]);
    TidyWithout('+', ps[..n]);
  }

  lemma SecondMatch(text: string)
    requires text == "a@b+c@d"
    ensures MatchAt(text, 3) && MatchEnd(text, 3) == 7 && text[3..7] == "+c@d"
  {
    LocalEndIs(text, 3, 5);
    DomainRunIs(text, 6, 7);
  }

  /** The second one is found at +, and once more at c. */
  lemma SecondInner(found: string)
    requires found == "+c@d"
    ensures InnerStart(found, 0) == 1 && LocalEnd(found, 1) == 2 && MatchAt(found, 1) && MatchEnd(found, 1) == 4
  {
    LocalEndIs(found, 1, 2);
    DomainRunIs(found, 3, 4);
    assert !MatchAt(found, 0) && MatchAt(found, 1);
  }

  lemma SecondAddress(text: string, ps: seq<Piece>)
    requires text == "a@b+c@d" && EmailScans(map[], text, 3, ps)
    ensures OnlyInGone('+', ps)
  {
    hide LocalEnd, MatchAt, MatchEnd, InnerStart, AddressPieces, AddressCount, Tidy, Source, OnlyInGone;
    SecondMatch(text);
    var found := text[3..7];
    SecondInner(found);
    assert found[1..2] == "c" && found[3..4] == "d";
    var k := AddressCount(map[], "c", "d");
    assert ps == ps[..1 + k];
    SecondPieces(found, ps, k);
  }

  lemma SecondPieces(found: string, ps: seq<Piece>, k: nat)
    requires |found| == 4 && |ps| == 1 + k && ps[..1] == Gones(found[..1])
    requires AddressPieces(map[], "c", "d", ps[1..1 + k])
    ensures OnlyInGone('+', ps)
  {
    hide AddressPieces, Tidy, Source;
    var qs := ps[1..1 + k];
    AddressLaws(map[], "c", "d", qs);
    TidyWithout('+', qs);
    assert ps == ps[..1] + qs && ps[..1][0].Gone?;
    OnlyInGoneConcat('+', ps[..1], qs);
  }

  /** An address right behind another one is not restored: the second of these loses its first character. */
  lemma AdjacentAddressIsNotRestored(text: string, ps: seq<Piece>, fullInput: string)
    requires text == "a@b+c@d" && EmailScans(map[], text, 0, ps)
    requires Calls(map[], ps, fullInput) && SeparatedCalls(map[], ps)
    ensures Unredacted(After(map[], ps), Out(ps)) != text
  {
    hide EmailScans, Calls, SeparatedCalls, OnlyInGone, Unredacted;
    FirstAddress(text, ps);
    var n :| 0 <= n <= |ps| && OnlyInGone('+', ps[..n]) && EmailScans(map[], text, 3, ps[n..]);
    SecondAddress(text, ps[n..]);
    OnlyInGoneConcat('+', ps[..n], ps[n..]);
    assert ps == ps[..n] + ps[n..];
    LostForGood('+', map[], ps, fullInput);
    assert text[3] == '+';
  }
}
