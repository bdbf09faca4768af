/** filter/email/email.go: the filter for mail addresses. */
module Email {
  import opened Text
  import opened Table
  import opened Unredaction
  import opened Replace
  import opened Pieces
  import opened NameGen
  import opened UniqueNames
  import opened EmailScan
  import opened EmailLaws

  /** The calls made, and the table they led to. */
  ghost predicate CallsMade(m0: Entries, ps: seq<Piece>, fullInput: string, m: Entries)
  {
    Calls(m0, ps, fullInput) && m == After(m0, ps)
  }

  lemma NoCallsMade(m: Entries, fullInput: string)
    ensures CallsMade(m, [], fullInput, m)
  {
  }

  lemma CallsMadeConcat(m0: Entries, a: seq<Piece>, m1: Entries, b: seq<Piece>, m2: Entries, fullInput: string)
    requires CallsMade(m0, a, fullInput, m1) && CallsMade(m1, b, fullInput, m2)
    ensures CallsMade(m0, a + b, fullInput, m2)
  {
    CallsConcat(m0, a, b, fullInput);
  }

  lemma OneCallMade(m0: Entries, a: seq<Piece>, m1: Entries, p: Piece, fullInput: string)
    requires CallsMade(m0, a, fullInput, m1)
    requires Asks(p) ==> MayReturn(m1, Asked(p), fullInput, p.rep)
    ensures CallsMade(m0, a + [p], fullInput, Put(m1, p))
  {
    AppendPiece(m0, a, p, fullInput);
  }

  /** Nothing is called for characters. */
  lemma {:induction false} NothingCalled(m: Entries, ps: seq<Piece>, fullInput: string)
    requires forall i :: 0 <= i < |ps| ==> ps[i].Lit? || ps[i].Gone?
    ensures CallsMade(m, ps, fullInput, m)
    decreases |ps|
  {
    if ps != [] {
      NothingCalled(m, ps[1..], fullInput);
    }
  }

  lemma FirstLabel(part: string, ps: seq<Piece>)
    requires if part == "" then ps == [] else |ps| == 1 && ps[0].Hit? && ps[0].orig == part
    ensures Labelled([part], ps)
  {
  }

  lemma NextLabel(labels: seq<string>, i: nat, ps: seq<Piece>, last: seq<Piece>)
    requires 0 < i < |labels| && Labelled(labels[..i], ps)
    requires if labels[i] == "" then last == [] else |last| == 1 && last[0].Hit? && last[0].orig == labels[i]
    ensures Labelled(labels[..i + 1], ps + [Lit('.')] + last)
  {
    var more, qs := labels[..i + 1], ps + [Lit('.')] + last;
    assert more[..i] == labels[..i] && qs[..|ps|] == ps;
  }

  /** strings.Join with a dot. */
  function JoinedBehind(joined: string, i: nat, rep: string): string
  {
    if i == 0 then rep else joined + "." + rep
  }

  lemma JoinAppend(anonymized: seq<string>, rep: string)
    ensures JoinDots(anonymized + [rep]) == JoinedBehind(JoinDots(anonymized), |anonymized|, rep)
  {
    var more := anonymized + [rep];
    if anonymized != [] {
      JoinLast(more);
      assert more[..|more| - 1] == anonymized;
    }
  }

  lemma OutAppend(ps: seq<Piece>, i: nat, last: seq<Piece>, rep: string)
    requires (i == 0 ==> ps == []) && Out(last) == rep
    ensures var dot: seq<Piece> := if i == 0 then [] else [Lit('.')];
            Out(ps + dot + last) == JoinedBehind(Out(ps), i, rep)
  {
    if i == 0 {
      assert ps + [] + last == last;
    } else {
      ThreeSources(ps, Lit('.'), last);
    }
  }

  /** One more label behind a dot, or the first one. */
  function WithLabel(ps: seq<Piece>, i: nat, last: seq<Piece>): seq<Piece>
  {
    ps + (if i == 0 then [] else [Lit('.')]) + last
  }

  /** The first i labels replaced. */
  ghost predicate LabelsSoFar(labels: seq<string>, i: nat, anonymized: seq<string>, m0: Entries, ps: seq<Piece>,
                              fullInput: string, m: Entries)
    requires i <= |labels|
  {
    && |anonymized| == i && CallsMade(m0, ps, fullInput, m) && Out(ps) == JoinDots(anonymized)
    && (if i == 0 then ps == [] else
          && Labelled(labels[..i], ps)
          && (labels[i - 1] != "" ==> ps != [] && ps[|ps| - 1] == Hit(labels[i - 1], anonymized[i - 1])))
  }

  lemma NoLabelsYet(labels: seq<string>, m: Entries, fullInput: string)
    ensures LabelsSoFar(labels, 0, [], m, [], fullInput, m)
  {
    NoCallsMade(m, fullInput);
    NothingJoined();
  }

  lemma LabelsMade(labels: seq<string>, i: nat, anonymized: seq<string>, m0: Entries, ps: seq<Piece>,
                   fullInput: string, m: Entries)
    requires i <= |labels| && LabelsSoFar(labels, i, anonymized, m0, ps, fullInput, m)
    ensures |anonymized| == i && CallsMade(m0, ps, fullInput, m) && Out(ps) == JoinDots(anonymized)
    ensures i > 0 ==> Labelled(labels[..i], ps)
    ensures i > 0 && labels[i - 1] != "" ==> ps != [] && ps[|ps| - 1] == Hit(labels[i - 1], anonymized[i - 1])
  {
    hide CallsMade, Out, JoinDots, Labelled;
  }

  lemma LabelsFurther(labels: seq<string>, i: nat, anonymized: seq<string>, m0: Entries, ps: seq<Piece>,
                      fullInput: string, m: Entries, last: seq<Piece>, rep: string)
    requires i < |labels| && LabelsSoFar(labels, i, anonymized, m0, ps, fullInput, m)
    requires if labels[i] == "" then last == [] && rep == ""
             else last == [Hit(labels[i], rep)] && MayReturn(m, labels[i], fullInput, rep)
    ensures LabelsSoFar(labels, i + 1, anonymized + [rep], m0, WithLabel(ps, i, last), fullInput,
                        if labels[i] == "" then m else m[rep := labels[i]])
  {
    hide CallsMade, Labelled, Out, MayReturn, JoinDots;
    var dot: seq<Piece> := if i == 0 then [] else [Lit('.')];
    if labels[i] == "" {
      NothingJoined();
    } else {
      OneText(Hit(labels[i], rep));
    }
    LabelCalls(m0, ps, m, dot, last, fullInput);
    OutAppend(ps, i, last, rep);
    JoinAppend(anonymized, rep);
    if i == 0 {
      FirstLabel(labels[0], last);
      assert labels[..1] == [labels[0]] && ps + dot + last == last;
    } else {
      NextLabel(labels, i, ps, last);
    }
  }

  class EmailFilter {
    var replacements: Replacements
    var tldSuffix: map<string, string>

    constructor (replacements: Replacements, tldSuffix: map<string, string>)
      ensures this.replacements == replacements && this.tldSuffix == tldSuffix
    {
      this.replacements := replacements;
      this.tldSuffix := tldSuffix;
    }

    /** The replacement for every label; empty labels stay empty. */
    method AnonymizeLabels(labels: seq<string>, fullInput: string, rnd: Rand)
      returns (ok: bool, anonymized: seq<string>, ghost ps: seq<Piece>)
      requires labels != []
      modifies replacements, rnd
      ensures CallsMade(old(replacements.m), ps, fullInput, replacements.m)
      ensures ok ==> Labelled(labels, ps) && Out(ps) == JoinDots(anonymized) && |anonymized| == |labels|
      ensures ok && labels[|labels| - 1] != "" ==>
                ps != [] && ps[|ps| - 1] == Hit(labels[|labels| - 1], anonymized[|labels| - 1])
    {
      hide *;
      anonymized, ps := [], [];
      ghost var m0 := replacements.m;
      NoLabelsYet(labels, m0, fullInput);
      for i := 0 to |labels|
        invariant LabelsSoFar(labels, i, anonymized, m0, ps, fullInput, replacements.m)
      {
        LabelsMade(labels, i, anonymized, m0, ps, fullInput, replacements.m);
        ghost var m, last := replacements.m, [];
        var rep := "";
        if labels[i] != "" {
          ok, rep := GetReplacement(replacements, labels[i], fullInput, rnd);
          if !ok {
            return;
          }
          last := [Hit(labels[i], rep)];
        }
        LabelsFurther(labels, i, anonymized, m0, ps, fullInput, m, last, rep);
        anonymized := anonymized + [rep];
        ps := WithLabel(ps, i, last);
      }
      LabelsMade(labels, |labels|, anonymized, m0, ps, fullInput, replacements.m);
      assert labels[..|labels|] == labels;
      ok := true;
    }

    /** The address local@domain with all its labels replaced. */
    method RedactAddress(local: string, domain: string, fullInput: string, rnd: Rand)
      returns (ok: bool, redacted: string, ghost ps: seq<Piece>)
      requires NoEmptyLabel(Split(domain))
      modifies replacements, rnd
      ensures CallsMade(old(replacements.m), ps, fullInput, replacements.m)
      ensures ok ==> AddressPieces(tldSuffix, local, domain, ps) && redacted == Out(ps)
    {
      hide CallsMade, Labelled, Out, Split, JoinDots, DomainPieces;
      redacted := "";
      ghost var m0 := replacements.m;
      var anonymizedLocal;
      ok, anonymizedLocal, ps := AnonymizeLabels(Split(local), fullInput, rnd);
      if !ok {
        return;
      }
      ghost var m1, at := replacements.m, Lit('@');
      OneCallMade(m0, ps, m1, at, fullInput);
      ghost var head := ps + [at];
      var domainPart;
      ghost var qs;
      ok, domainPart, qs := RedactDomain(domain, fullInput, rnd);
      CallsMadeConcat(m0, head, m1, qs, replacements.m, fullInput);
      ThreeSources(ps, at, qs);
      if ok {
        AddressOfParts(tldSuffix, local, domain, ps, qs);
      }
      ps := head + qs;
      redacted := JoinDots(anonymizedLocal) + "@" + domainPart;
    }

    /** The domain with all its labels replaced, and its top-level domain kept or replaced. */
    method RedactDomain(domain: string, fullInput: string, rnd: Rand)
      returns (ok: bool, redacted: string, ghost ps: seq<Piece>)
      requires NoEmptyLabel(Split(domain))
      modifies replacements, rnd
      ensures CallsMade(old(replacements.m), ps, fullInput, replacements.m)
      ensures ok ==> DomainPieces(tldSuffix, domain, ps) && redacted == Out(ps)
    {
      hide CallsMade, Labelled, Out, Split, JoinDots, MayReturn;
      redacted := "";
      ghost var m0 := replacements.m;
      var (domainLabels, tld) := SplitDomain(domain);
      var labels;
      ok, labels, ps := AnonymizeLabels(domainLabels, fullInput, rnd);
      if !ok {
        return;
      }
      LabelledCount(domainLabels, ps);
      redacted := JoinDots(labels);
      if tld == "" {
        return;
      }
      var replacementTLD, shouldReplaceTLD := "", false;
      if Fold(tld) in tldSuffix {
        replacementTLD, shouldReplaceTLD := tldSuffix[Fold(tld)], true;
      } else if "*" in tldSuffix {
        replacementTLD, shouldReplaceTLD := tldSuffix["*"], true;
      }
      ghost var m1 := replacements.m;
      if !shouldReplaceTLD {
        ghost var tail := Lits("." + tld);
        NothingCalled(m1, tail, fullInput);
        CallsMadeConcat(m0, ps, m1, tail, m1, fullInput);
        TextsConcat(ps, tail);
        LitsTexts("." + tld);
        assert (ps + tail)[..|ps|] == ps && (ps + tail)[|ps|..] == tail;
        ps := ps + tail;
        redacted := redacted + ("." + tld);
        return;
      }
      var lastIdx := |labels| - 1;
      replacements.m := replacements.m[labels[lastIdx] + "." + replacementTLD := domainLabels[lastIdx] + "." + tld];
      assert domainLabels[lastIdx] != "" by {
        assert domainLabels[lastIdx] == Split(domain)[lastIdx];
      }
      LastBecomesCombo(m0, ps, m1, tld, replacementTLD, fullInput);
      ghost var qs := ps;
      ps := ps[|ps| - 1 := Combo(domainLabels[lastIdx], tld, labels[lastIdx], replacementTLD)];
      redacted := redacted + "." + replacementTLD;
      assert ps[|ps| - 1 := Hit(domainLabels[lastIdx], labels[lastIdx])] == qs;
    }

    /** A match: what is found when the expression is applied to it once more is replaced. */
    method RedactMatch(found: string, fullInput: string, rnd: Rand)
      returns (ok: bool, redacted: string, ghost ps: seq<Piece>)
      modifies replacements, rnd
      ensures CallsMade(old(replacements.m), ps, fullInput, replacements.m)
      ensures ok ==> MatchPieces(tldSuffix, found, ps) && redacted == Out(ps)
    {
      hide CallsMade, Out, Split, AddressPieces, LocalEnd, DomainRun, DotRuns, NoEmptyLabel;
      ghost var m0 := replacements.m;
      var s := InnerStart(found, 0);
      if s == |found| {
        ps := Lits(found);
        NothingCalled(m0, ps, fullInput);
        LitsTexts(found);
        return true, found, ps;
      }
      var a, e := LocalEnd(found, s), MatchEnd(found, s);
      DomainHasNoEmptyLabel(found, s);
      ghost var front, tail := Gones(found[..s]), Gones(found[e..]);
      ok, redacted, ps := RedactAddress(found[s..a], found[a + 1..e], fullInput, rnd);
      ghost var qs := ps;
      NothingCalled(m0, front, fullInput);
      CallsMadeConcat(m0, front, m0, qs, replacements.m, fullInput);
      NothingCalled(replacements.m, tail, fullInput);
      CallsMadeConcat(m0, front + qs, replacements.m, tail, replacements.m, fullInput);
      ps := front + qs + tail;
      if ok {
        AddressSize(tldSuffix, found[s..a], found[a + 1..e], qs);
        MatchOfParts(front, qs, tail);
      }
    }

    /** Replaces the labels of all addresses in text. Not ok when the draws run out. */
    method Redact(text: string, fullInput: string, rnd: Rand) returns (ok: bool, redacted: string, ghost ps: seq<Piece>)
      modifies replacements, rnd
      ensures CallsMade(old(replacements.m), ps, fullInput, replacements.m)
      ensures ok ==> EmailScans(tldSuffix, text, 0, ps) && redacted == Out(ps)
    {
      hide CallsMade, Out, MatchPieces, MatchCount, EmailScans, LocalEnd, DomainRun, DotRuns, Boundary;
      ghost var m0 := replacements.m;
      redacted, ps := "", [];
      NoCallsMade(m0, fullInput);
      NothingJoined();
      var i := 0;
      EmailScanStarts(tldSuffix, text);
      while i < |text|
        invariant i <= |text|
        invariant EmailScannedTo(tldSuffix, text, i, ps) && redacted == Out(ps)
        invariant CallsMade(m0, ps, fullInput, replacements.m)
      {
        hide EmailScannedTo;
        ghost var m1, qs := replacements.m, [];
        var piece, next;
        if MatchAt(text, i) {
          next := MatchEnd(text, i);
          ok, piece, qs := RedactMatch(text[i..next], fullInput, rnd);
          CallsMadeConcat(m0, ps, m1, qs, replacements.m, fullInput);
          if !ok {
            ps := ps + qs;
            return;
          }
        } else {
          next := i + 1;
          piece := [text[i]];
          qs := [Lit(text[i])];
          OneText(qs[0]);
          OneCallMade(m0, ps, m1, qs[0], fullInput);
        }
        EmailScanGoesOn(tldSuffix, text, i, ps, qs);
        TextsConcat(ps, qs);
        redacted := redacted + piece;
        ps := ps + qs;
        i := next;
      }
      EmailScanEnds(tldSuffix, text, ps);
      ok := true;
    }

    method Unredact(text: string) returns (r: string)
      ensures r == Unredacted(replacements.m, text)
    {
      r := UnredactText(replacements, text);
    }
  }

  lemma LabelledCount(labels: seq<string>, ps: seq<Piece>)
    requires labels != [] && Labelled(labels, ps)
    ensures |ps| == PieceCount(labels)
  {
  }

  lemma AddressOfParts(suffixes: map<string, string>, local: string, domain: string, ps: seq<Piece>, qs: seq<Piece>)
    requires Labelled(Split(local), ps) && DomainPieces(suffixes, domain, qs)
    ensures AddressPieces(suffixes, local, domain, ps + [Lit('@')] + qs)
  {
    hide Labelled, DomainPieces;
    LabelledCount(Split(local), ps);
    var all := ps + [Lit('@')] + qs;
    assert all[..|ps|] == ps && all[|ps| + 1..] == qs;
  }

  /** The last label, together with its top-level domain. */
  lemma LastBecomesCombo(m0: Entries, ps: seq<Piece>, m1: Entries, tld: string, suffix: string, fullInput: string)
    requires CallsMade(m0, ps, fullInput, m1) && ps != [] && ps[|ps| - 1].Hit?
    ensures var p := ps[|ps| - 1];
            var cs := ps[|ps| - 1 := Combo(p.orig, tld, p.rep, suffix)];
            && CallsMade(m0, cs, fullInput, m1[p.rep + "." + suffix := p.orig + "." + tld])
            && Out(cs) == Out(ps) + "." + suffix
  {
    hide MayReturn, Calls, After, Out, SeparatedCalls;
    var front, p := ps[..|ps| - 1], ps[|ps| - 1];
    var combo := Combo(p.orig, tld, p.rep, suffix);
    assert ps == front + [p] && ps[|ps| - 1 := combo] == front + [combo];
    assert OutOf(combo) == OutOf(p) + "." + suffix;
    CallsConcat(m0, front, [p], fullInput);
    CallsConcat(m0, front, [combo], fullInput);
    TextsConcat(front, [p]);
    TextsConcat(front, [combo]);
    OneText(p);
    OneText(combo);
    OneCall(After(m0, front), p, fullInput);
    OneCall(After(m0, front), combo, fullInput);
  }

  lemma OneCall(m: Entries, p: Piece, fullInput: string)
    ensures Calls(m, [p], fullInput) <==> (Asks(p) ==> MayReturn(m, Asked(p), fullInput, p.rep))
    ensures After(m, [p]) == Put(m, p)
  {
  }

  lemma AddressSize(suffixes: map<string, string>, local: string, domain: string, ps: seq<Piece>)
    requires AddressPieces(suffixes, local, domain, ps)
    ensures |ps| == AddressCount(suffixes, local, domain)
  {
  }

  lemma MatchOfParts(front: seq<Piece>, qs: seq<Piece>, tail: seq<Piece>)
    requires forall i :: 0 <= i < |front| ==> front[i].Gone?
    requires forall i :: 0 <= i < |tail| ==> tail[i].Gone?
    ensures var ps := front + qs + tail;
            && Out(ps) == Out(qs)
            && ps[..|front|] == front && ps[|front|..|front| + |qs|] == qs && ps[|front| + |qs|..] == tail
  {
    hide *;
    TextsConcat(front + qs, tail);
    TextsConcat(front, qs);
    GoneIsNothing(front);
    GoneIsNothing(tail);
    SlicesOfThree(front, qs, tail);
  }

  lemma SlicesOfThree(a: seq<Piece>, b: seq<Piece>, c: seq<Piece>)
    ensures var ps := a + b + c;
            ps[..|a|] == a && ps[|a|..|a| + |b|] == b && ps[|a| + |b|..] == c
  {
  }

  lemma {:induction false} GoneIsNothing(ps: seq<Piece>)
    requires forall i :: 0 <= i < |ps| ==> ps[i].Gone?
    ensures Out(ps) == ""
  {
    if ps != [] {
      GoneIsNothing(ps[1..]);
    }
  }

  /** What has been scanned, followed by a scan of the rest, is a scan of the whole text. */
  ghost predicate EmailScannedTo(suffixes: map<string, string>, text: string, i: nat, done: seq<Piece>)
    requires i <= |text|
  {
    forall rest :: EmailScans(suffixes, text, i, rest) ==> EmailScans(suffixes, text, 0, done + rest)
  }

  lemma EmailScanStarts(suffixes: map<string, string>, text: string)
    ensures EmailScannedTo(suffixes, text, 0, [])
  {
    forall rest | EmailScans(suffixes, text, 0, rest)
      ensures EmailScans(suffixes, text, 0, [] + rest)
    {
      assert [] + rest == rest;
    }
  }

  lemma EmailScanGoesOn(suffixes: map<string, string>, text: string, i: nat, done: seq<Piece>, qs: seq<Piece>)
    requires i < |text| && EmailScannedTo(suffixes, text, i, done)
    requires if MatchAt(text, i) then MatchPieces(suffixes, text[i..MatchEnd(text, i)], qs) else qs == [Lit(text[i])]
    ensures EmailScannedTo(suffixes, text, if MatchAt(text, i) then MatchEnd(text, i) else i + 1, done + qs)
  {
    hide MatchAt, MatchEnd, MatchPieces, EmailScans;
    var k := if MatchAt(text, i) then MatchEnd(text, i) else i + 1;
    forall rest | EmailScans(suffixes, text, k, rest)
      ensures EmailScans(suffixes, text, 0, done + qs + rest)
    {
      ScanWithPieces(suffixes, text, i, qs, rest);
      assert done + (qs + rest) == done + qs + rest;
    }
  }

  lemma ScanWithPieces(suffixes: map<string, string>, text: string, i: nat, qs: seq<Piece>, rest: seq<Piece>)
    requires i < |text|
    requires if MatchAt(text, i) then MatchPieces(suffixes, text[i..MatchEnd(text, i)], qs) else qs == [Lit(text[i])]
    requires EmailScans(suffixes, text, if MatchAt(text, i) then MatchEnd(text, i) else i + 1, rest)
    ensures EmailScans(suffixes, text, i, qs + rest)
  {
    hide LocalEnd, DomainRun, DotRuns, Boundary;
    assert (qs + rest)[..|qs|] == qs && (qs + rest)[|qs|..] == rest;
    if MatchAt(text, i) {
      MatchSize(suffixes, text[i..MatchEnd(text, i)], qs);
    }
  }

  lemma MatchSize(suffixes: map<string, string>, found: string, ps: seq<Piece>)
    requires MatchPieces(suffixes, found, ps)
    ensures |ps| == MatchCount(suffixes, found)
  {
  }

  lemma EmailScanEnds(suffixes: map<string, string>, text: string, done: seq<Piece>)
    requires EmailScannedTo(suffixes, text, |text|, done)
    ensures EmailScans(suffixes, text, 0, done)
  {
    assert EmailScans(suffixes, text, |text|, []);
    assert done + [] == done;
  }

  lemma NothingJoined()
    ensures Out([]) == "" == JoinDots([])
  {
  }

  lemma LabelCalls(m0: Entries, ps: seq<Piece>, m: Entries, dot: seq<Piece>, last: seq<Piece>, fullInput: string)
    requires CallsMade(m0, ps, fullInput, m) && (dot == [] || dot == [Lit('.')])
    requires last == [] || (|last| == 1 && last[0].Hit? && MayReturn(m, last[0].orig, fullInput, last[0].rep))
    ensures CallsMade(m0, ps + dot + last, fullInput, if last == [] then m else m[last[0].rep := last[0].orig])
  {
    hide CallsMade, MayReturn;
    if dot == [] {
      assert ps + dot == ps;
    } else {
      OneCallMade(m0, ps, m, Lit('.'), fullInput);
    }
    if last == [] {
      assert ps + dot + last == ps + dot;
    } else {
      assert last == [last[0]];
      OneCallMade(m0, ps + dot, m, last[0], fullInput);
    }
  }
}
