/** What a scan for names guarantees: replacements stand alone, and no listed name is left over. */
module NameLaws {
  import opened Text
  import opened Pieces
  import opened RoundTrip
  import opened NameScan

  lemma FlankedCons(p: Piece, rest: seq<Piece>)
    requires Flanked(rest)
    requires Asks(p) && rest != [] ==> IsBreak(rest[0])
    requires rest != [] && Asks(rest[0]) ==> IsBreak(p)
    ensures Flanked([p] + rest)
  {
  }

  /** Replacements made by a names filter touch no letter. */
  lemma {:induction false} ScanIsFlanked(names: seq<string>, text: string, i: nat, ps: seq<Piece>)
    requires i <= |text| && WordEnds(names) && Scans(names, text, i, ps)
    ensures Flanked(ps)
    ensures ps != [] && ps[0].Hit? ==> i == 0 || !IsWord(text[i - 1])
    ensures ps != [] && ps[0].Lit? ==> i < |text| && ps[0].c == text[i]
    ensures i < |text| && !IsWord(text[i]) ==> ps != [] && ps[0] == Lit(text[i])
    decreases |text| - i
  {
    hide LongestFit, FitsAt, WordEnds;
    if i < |text| {
      var k := Step(names, text, i);
      ScansHead(names, text, i, ps);
      if ps[0].Hit? {
        MatchStandsAlone(names, text, i);
      }
      ScanIsFlanked(names, text, i + k, ps[1..]);
      assert ps == [ps[0]] + ps[1..];
      FlankedCons(ps[0], ps[1..]);
    }
  }

  /** Number of characters left alone before the first replacement. */
  function LitRun(ps: seq<Piece>): (n: nat)
    ensures n <= |ps|
  {
    if ps == [] || !ps[0].Lit? then 0 else 1 + LitRun(ps[1..])
  }

  /** n characters of a from p on are those of b from q on. */
  predicate Same(a: string, p: nat, b: string, q: nat, n: nat)
  {
    p + n <= |a| && q + n <= |b| && a[p..p + n] == b[q..q + n]
  }

  lemma SameChar(a: string, p: nat, b: string, q: nat, n: nat, j: nat)
    requires Same(a, p, b, q, n) && j < n
    ensures p + n <= |a| && q + n <= |b| && a[p + j] == b[q + j]
  {
  }

  lemma SameBehind(front: string, a: string, p: nat, b: string, q: nat, n: nat)
    requires Same(a, p, b, q, n)
    ensures Same(front + a, |front| + p, b, q, n)
  {
  }

  lemma SameShorter(a: string, p: nat, b: string, q: nat, n: nat, k: nat)
    requires Same(a, p, b, q, n) && k <= n
    ensures Same(a, p, b, q, k)
  {
    assert a[p..p + k] == a[p..p + n][..k];
    assert b[q..q + k] == b[q..q + n][..k];
  }

  lemma SameCons(c: char, a: string, b: string, q: nat, n: nat)
    requires q < |b| && b[q] == c && Same(a, 0, b, q + 1, n)
    ensures Same([c] + a, 0, b, q, n + 1)
  {
  }

  /** What a walk from position i looks like up to, and including, its first replacement. */
  predicate RunsTo(text: string, i: nat, ps: seq<Piece>)
    requires i <= |text|
  {
    var n, o := LitRun(ps), Out(ps);
    && Same(o, 0, text, i, n)
    && (if n == |ps| then |o| == n && i + n == |text|
        else ps[n].Hit? && i + n <= |text| && Same(o, n, ps[n].rep, 0, |ps[n].rep|))
  }

  /** No listed name stands at position i. */
  ghost predicate NoneStands(names: seq<string>, text: string, i: nat)
  {
    forall k :: 0 <= k < |names| ==> !FitsAt(names[k], text, i)
  }

  /** The pieces of the text from position i on; no listed name stands where a character is left alone. */
  ghost predicate Walks(names: seq<string>, text: string, i: nat, ps: seq<Piece>)
    requires i <= |text|
    decreases |ps|
  {
    if ps == [] then i == |text|
    else
      var e := i + |SourceOf(ps[0])|;
      && (ps[0].Lit? || ps[0].Hit?)
      && e <= |text| && SourceOf(ps[0]) == text[i..e]
      && (ps[0].Lit? ==> NoneStands(names, text, i))
      && Walks(names, text, e, ps[1..])
  }

  lemma WalksHead(names: seq<string>, text: string, i: nat, ps: seq<Piece>)
    requires i <= |text| && Walks(names, text, i, ps) && ps != []
    ensures var e := i + |SourceOf(ps[0])|;
            && (ps[0].Lit? || ps[0].Hit?)
            && e <= |text| && SourceOf(ps[0]) == text[i..e]
            && Walks(names, text, e, ps[1..])
    ensures ps[0].Lit? ==> i < |text| && ps[0] == Lit(text[i]) && NoneStands(names, text, i)
  {
  }

  lemma WalksFrom(names: seq<string>, text: string, i: nat, ps: seq<Piece>)
    requires i <= |text| && ps != [] && (ps[0].Lit? || ps[0].Hit?)
    requires var e := i + |SourceOf(ps[0])|;
             && e <= |text| && SourceOf(ps[0]) == text[i..e]
             && (ps[0].Lit? ==> NoneStands(names, text, i))
             && Walks(names, text, e, ps[1..])
    ensures Walks(names, text, i, ps)
  {
  }

  /** A scan for the names is such a walk. */
  lemma {:induction false} ScanWalks(names: seq<string>, text: string, i: nat, ps: seq<Piece>)
    requires i <= |text| && WordEnds(names) && Scans(names, text, i, ps)
    ensures Walks(names, text, i, ps)
    decreases |text| - i
  {
    hide *;
    if i == |text| {
      ScansEnd(names, text, ps);
      NothingWalks(names, text);
    } else {
      ScansHead(names, text, i, ps);
      var k := Step(names, text, i);
      ScanWalks(names, text, i + k, ps[1..]);
      if ps[0].Lit? {
        NothingFits(names, text, i);
      }
      WalksFrom(names, text, i, ps);
    }
  }

  lemma NothingWalks(names: seq<string>, text: string)
    ensures Walks(names, text, |text|, [])
  {
  }

  lemma NothingFits(names: seq<string>, text: string, i: nat)
    requires WordEnds(names) && LongestFit(names, text, i) == 0
    ensures NoneStands(names, text, i)
  {
    hide LongestFit, FitsAt;
    LongestFitIsLongest(names, text, i);
  }

  /** So is anything done to a text in which no name stands. */
  lemma {:induction false} FreeTextWalks(names: seq<string>, text: string, i: nat, ps: seq<Piece>)
    requires i <= |text| && Plain(ps) && Source(ps) == text[i..]
    requires forall j: nat :: NoneStands(names, text, j)
    ensures Walks(names, text, i, ps)
    decreases |ps|
  {
    if ps == [] {
      NoTexts();
    } else {
      PlainHead(ps);
      hide *;
      FirstText(ps);
      CutHead(text, i, SourceOf(ps[0]), Source(ps[1..]));
      var e := i + |SourceOf(ps[0])|;
      FreeTextWalks(names, text, e, ps[1..]);
      WalksFrom(names, text, i, ps);
    }
  }

  lemma PlainHead(ps: seq<Piece>)
    requires Plain(ps) && ps != []
    ensures (ps[0].Lit? || ps[0].Hit?) && Plain(ps[1..])
  {
  }

  lemma CutHead(text: string, i: nat, head: string, rest: string)
    requires i <= |text| && text[i..] == head + rest
    ensures var e := i + |head|;
            e <= |text| && text[i..e] == head && text[e..] == rest
  {
    var tail := text[i..];
    assert tail[..|head|] == head && tail[|head|..] == rest;
  }

  lemma OutHead(ps: seq<Piece>)
    requires ps != []
    ensures Out(ps) == OutOf(ps[0]) + Out(ps[1..])
    ensures |Out(ps)| == |OutOf(ps[0])| + |Out(ps[1..])|
  {
  }

  lemma RunsToHit(text: string, i: nat, ps: seq<Piece>)
    requires i <= |text| && ps != [] && ps[0].Hit?
    ensures RunsTo(text, i, ps)
  {
  }

  lemma RunsToEnd(text: string)
    ensures RunsTo(text, |text|, [])
  {
  }

  lemma RunsToLit(text: string, i: nat, ps: seq<Piece>)
    requires i < |text| && ps != [] && ps[0] == Lit(text[i]) && RunsTo(text, i + 1, ps[1..])
    ensures RunsTo(text, i, ps)
  {
    var n, rest := LitRun(ps), Out(ps[1..]);
    OutHead(ps);
    hide Same, Out;
    SameCons(text[i], rest, text, i, n - 1);
    if n < |ps| {
      assert ps[1..][n - 1] == ps[n];
      SameBehind([text[i]], rest, n - 1, ps[n].rep, 0, |ps[n].rep|);
    }
  }

  lemma {:induction false} WalkRunsTo(names: seq<string>, text: string, i: nat, ps: seq<Piece>)
    requires i <= |text| && Walks(names, text, i, ps)
    ensures RunsTo(text, i, ps)
    decreases |ps|
  {
    hide NoneStands, RunsTo;
    if ps == [] {
      RunsToEnd(text);
    } else {
      WalksHead(names, text, i, ps);
      if ps[0].Hit? {
        RunsToHit(text, i, ps);
      } else {
        WalkRunsTo(names, text, i + 1, ps[1..]);
        RunsToLit(text, i, ps);
      }
    }
  }

  ghost predicate UnlistedRep(name: string, rep: string)
  {
    rep != "" && IsLetters(rep) && !Contains(Fold(name), Fold(rep))
  }

  /** Replacements are words of letters that no listed name contains. */
  ghost predicate Unlisted(names: seq<string>, ps: seq<Piece>)
  {
    forall i, k :: 0 <= i < |ps| && ps[i].Hit? && 0 <= k < |names| ==> UnlistedRep(names[k], ps[i].rep)
  }

  lemma UnlistedIsWord(name: string, rep: string)
    requires UnlistedRep(name, rep)
    ensures rep != "" && IsWord(rep[0]) && IsWord(rep[|rep| - 1])
  {
  }

  lemma TooLong(name: string, text: string, q: nat)
    requires q + |name| > |text|
    ensures !FitsAt(name, text, q)
  {
  }

  /** No boundary lies inside a replacement. */
  lemma NoBoundaryInside(text: string, at: nat, rep: string, e: nat)
    requires IsLetters(rep) && Same(text, at, rep, 0, |rep|) && at < e < at + |rep|
    ensures e <= |text| && !Boundary(text, e)
  {
    SameChar(text, at, rep, 0, |rep|, e - at);
    SameChar(text, at, rep, 0, |rep|, e - 1 - at);
  }

  lemma NotWithoutBoundary(name: string, text: string, q: nat)
    requires q <= |text| && q + |name| <= |text| ==> !Boundary(text, q) || !Boundary(text, q + |name|)
    ensures !FitsAt(name, text, q)
  {
  }

  lemma NoNameInside(name: string, text: string, q: nat, at: nat, rep: string)
    requires UnlistedRep(name, rep) && Same(text, at, rep, 0, |rep|) && at < q < at + |rep|
    ensures !FitsAt(name, text, q)
  {
    hide Same, Boundary, FitsAt;
    NoBoundaryInside(text, at, rep, q);
    NotWithoutBoundary(name, text, q);
  }

  lemma SliceOfSlice(text: string, q: nat, e: nat, d: nat, n: nat)
    requires q + d + n <= e <= |text|
    ensures text[q..e][d..d + n] == text[q + d..q + d + n]
  {
    var a, b := text[q..e][d..d + n], text[q + d..q + d + n];
    assert forall k :: 0 <= k < n ==> a[k] == b[k];
  }

  lemma PartOfFold(name: string, text: string, q: nat, at: nat, rep: string)
    requires q <= at && at + |rep| <= q + |name| <= |text| && Same(text, at, rep, 0, |rep|)
    requires Fold(text[q..q + |name|]) == Fold(name)
    ensures Contains(Fold(name), Fold(rep))
  {
    var e, d := q + |name|, at - q;
    SliceOfSlice(text, q, e, d, |rep|);
    assert rep[0..0 + |rep|] == rep;
    hide Fold, Contains;
    FoldSlice(text[q..e], d, d + |rep|);
    FoundInside(Fold(name), Fold(rep), d);
  }

  lemma FoundInside(text: string, part: string, d: nat)
    requires OccursAt(text, part, d)
    ensures Contains(text, part)
  {
  }

  /** No name stands at a place where a replacement would have to be part of it. */
  lemma NoNameAcross(name: string, text: string, q: nat, at: nat, rep: string)
    requires UnlistedRep(name, rep) && Same(text, at, rep, 0, |rep|)
    requires q <= at < q + |name|
    ensures !FitsAt(name, text, q)
  {
    hide Same, Boundary, Contains;
    var e := q + |name|;
    if e < at + |rep| {
      hide FitsAt;
      NoBoundaryInside(text, at, rep, e);
      NotWithoutBoundary(name, text, q);
    } else if FitsAt(name, text, q) {
      PartOfFold(name, text, q, at, rep);
    }
  }

  /** The character before position i is a word character. */
  predicate WordBefore(text: string, i: nat)
    requires i <= |text|
  {
    i > 0 && IsWord(text[i - 1])
  }

  predicate WordAfter(text: string, i: nat)
    requires i <= |text|
  {
    i < |text| && IsWord(text[i])
  }

  /** A name that is a word stands in the text too, if the text has no more word characters around it. */
  lemma SamePlace(name: string, o: string, q: nat, text: string, i: nat)
    requires name != "" && IsWord(name[0]) && IsWord(name[|name| - 1]) && Same(o, q, text, i, |name|)
    requires WordBefore(text, i) ==> WordBefore(o, q)
    requires WordAfter(text, i + |name|) ==> WordAfter(o, q + |name|)
    requires FitsAt(name, o, q)
    ensures FitsAt(name, text, i)
  {
    var n := |name|;
    SameChar(o, q, text, i, n, 0);
    SameChar(o, q, text, i, n, n - 1);
    NameStandsAlone(name, o, q);
  }

  /** A name longer than the stretch left alone would contain the replacement behind it. */
  lemma NotTooLong(text: string, i: nat, ps: seq<Piece>, before: string, name: string)
    requires i <= |text| && RunsTo(text, i, ps) && |name| > LitRun(ps)
    requires LitRun(ps) < |ps| ==> UnlistedRep(name, ps[LitRun(ps)].rep)
    ensures !FitsAt(name, before + Out(ps), |before|)
  {
    hide FitsAt, UnlistedRep, Same, Out, LitRun;
    var o, q, n := before + Out(ps), |before|, LitRun(ps);
    if n < |ps| {
      SameBehind(before, Out(ps), n, ps[n].rep, 0, |ps[n].rep|);
      NoNameAcross(name, o, q, q + n, ps[n].rep);
    } else {
      TooLong(name, o, q);
    }
  }

  /** Within the characters left alone, output and text are alike. */
  lemma AlikeInside(text: string, i: nat, ps: seq<Piece>, before: string, k: nat)
    requires i <= |text| && RunsTo(text, i, ps) && k < LitRun(ps)
    ensures i + k < |text| && |before| + k < |before + Out(ps)|
    ensures (before + Out(ps))[|before| + k] == text[i + k]
  {
    var n, o := LitRun(ps), Out(ps);
    assert Same(o, 0, text, i, n);
    hide *;
    SameBehind(before, o, 0, text, i, n);
    SameChar(before + o, |before|, text, i, n, k);
  }

  /** Behind them comes the replacement. */
  lemma AlikeBehindAll(text: string, i: nat, ps: seq<Piece>, before: string)
    requires i <= |text| && RunsTo(text, i, ps)
    requires LitRun(ps) < |ps| ==> ps[LitRun(ps)].rep != "" && IsWord(ps[LitRun(ps)].rep[0])
    ensures var n := LitRun(ps);
            && i + n <= |text| && |before| + n <= |before + Out(ps)|
            && (WordAfter(text, i + n) ==> WordAfter(before + Out(ps), |before| + n))
  {
    var n, o := LitRun(ps), Out(ps);
    hide Out, LitRun, Same;
    SameLength(o, 0, text, i, n);
    if n < |ps| {
      var rep := ps[n].rep;
      SameBehind(before, o, n, rep, 0, |rep|);
      SameChar(before + o, |before| + n, rep, 0, |rep|, 0);
    }
  }

  lemma SameLength(a: string, p: nat, b: string, q: nat, n: nat)
    requires Same(a, p, b, q, n)
    ensures p + n <= |a| && q + n <= |b|
  {
  }

  /** Behind k characters left alone, output and text go on alike. */
  lemma AlikeBehind(text: string, i: nat, ps: seq<Piece>, before: string, k: nat)
    requires i <= |text| && RunsTo(text, i, ps) && k <= LitRun(ps)
    requires LitRun(ps) < |ps| ==> ps[LitRun(ps)].rep != "" && IsWord(ps[LitRun(ps)].rep[0])
    ensures i + k <= |text| && |before| + k <= |before + Out(ps)|
    ensures WordAfter(text, i + k) ==> WordAfter(before + Out(ps), |before| + k)
  {
    hide Out, LitRun, RunsTo;
    if k < LitRun(ps) {
      AlikeInside(text, i, ps, before, k);
    } else {
      AlikeBehindAll(text, i, ps, before);
    }
  }

  lemma AlikeSoFar(text: string, i: nat, ps: seq<Piece>, before: string, k: nat)
    requires i <= |text| && RunsTo(text, i, ps) && k <= LitRun(ps)
    ensures Same(before + Out(ps), |before|, text, i, k)
  {
    hide Out, LitRun, Same;
    SameBehind(before, Out(ps), 0, text, i, LitRun(ps));
    SameShorter(before + Out(ps), |before|, text, i, LitRun(ps), k);
  }

  lemma WordBeforeEnd(before: string, more: string)
    ensures WordBefore(before + more, |before|) == WordBefore(before, |before|)
  {
  }

  /** A name in the output at a place left alone would stand there in the text. */
  lemma FoundThere(text: string, i: nat, ps: seq<Piece>, before: string, name: string)
    requires i <= |text| && RunsTo(text, i, ps) && 0 < |name| <= LitRun(ps)
    requires IsWord(name[0]) && IsWord(name[|name| - 1])
    requires WordBefore(text, i) ==> WordBefore(before, |before|)
    requires LitRun(ps) < |ps| ==> ps[LitRun(ps)].rep != "" && IsWord(ps[LitRun(ps)].rep[0])
    ensures FitsAt(name, before + Out(ps), |before|) ==> FitsAt(name, text, i)
  {
    hide *;
    AlikeBehind(text, i, ps, before, |name|);
    AlikeSoFar(text, i, ps, before, |name|);
    WordBeforeEnd(before, Out(ps));
    if FitsAt(name, before + Out(ps), |before|) {
      SamePlace(name, before + Out(ps), |before|, text, i);
    }
  }

  /** No name stands in the output where a character is left alone. */
  lemma NothingThere(names: seq<string>, text: string, i: nat, ps: seq<Piece>, before: string, k: nat)
    requires i <= |text| && WordEnds(names) && Walks(names, text, i, ps) && Unlisted(names, ps)
    requires k < |names| && ps != [] && ps[0].Lit? && (WordBefore(text, i) ==> WordBefore(before, |before|))
    ensures !FitsAt(names[k], before + Out(ps), |before|)
  {
    hide *;
    WalkRunsTo(names, text, i, ps);
    WalksHead(names, text, i, ps);
    NextIsUnlisted(names, text, i, ps, k);
    EndsOfName(names, k);
    if |names[k]| > LitRun(ps) {
      NotTooLong(text, i, ps, before, names[k]);
    } else {
      FoundThere(text, i, ps, before, names[k]);
      NotAtHead(names, text, i, k);
    }
  }

  /** The replacement behind the characters left alone, if there is one. */
  lemma NextIsUnlisted(names: seq<string>, text: string, i: nat, ps: seq<Piece>, k: nat)
    requires i <= |text| && RunsTo(text, i, ps) && Unlisted(names, ps) && k < |names|
    ensures var n := LitRun(ps);
            n < |ps| ==> && ps[n].Hit? && UnlistedRep(names[k], ps[n].rep)
                         && ps[n].rep != "" && IsWord(ps[n].rep[0])
  {
    hide UnlistedRep, Same, Out;
    var n := LitRun(ps);
    if n < |ps| {
      assert UnlistedRep(names[k], ps[n].rep);
      UnlistedIsWord(names[k], ps[n].rep);
    }
  }

  lemma EndsOfName(names: seq<string>, k: nat)
    requires WordEnds(names) && k < |names|
    ensures names[k] != "" && IsWord(names[k][0]) && IsWord(names[k][|names[k]| - 1])
  {
  }

  lemma NotAtHead(names: seq<string>, text: string, i: nat, k: nat)
    requires NoneStands(names, text, i) && k < |names|
    ensures !FitsAt(names[k], text, i)
  {
  }

  lemma NoEmptyName(names: seq<string>, k: nat)
    requires WordEnds(names) && k < |names|
    ensures names[k] != ""
  {
  }

  lemma UnlistedTail(names: seq<string>, ps: seq<Piece>)
    requires Unlisted(names, ps) && ps != []
    ensures Unlisted(names, ps[1..])
    ensures ps[0].Hit? ==> forall k :: 0 <= k < |names| ==> UnlistedRep(names[k], ps[0].rep)
  {
  }

  /** No name begins at, or within, a replacement that comes next. */
  lemma NoneAtHit(name: string, before: string, ps: seq<Piece>, q: nat)
    requires ps != [] && ps[0].Hit? && UnlistedRep(name, ps[0].rep) && name != ""
    requires |before| <= q < |before| + |ps[0].rep|
    ensures !FitsAt(name, before + Out(ps), q)
  {
    hide *;
    RepFollows(before, ps);
    if q == |before| {
      NoNameAcross(name, before + Out(ps), q, q, ps[0].rep);
    } else {
      NoNameInside(name, before + Out(ps), q, |before|, ps[0].rep);
    }
  }

  lemma NoneAtEnd(name: string, before: string, q: nat)
    requires name != "" && q >= |before|
    ensures !FitsAt(name, before + Out([]), q)
  {
  }

  /**
   No listed name, in whatever case, is left in the output as a whole word. before is the output of
   the pieces already passed.
   */
  lemma {:induction false} NoneLeftFrom(names: seq<string>, text: string, i: nat, ps: seq<Piece>,
                                        before: string, k: nat, q: nat)
    requires i <= |text| && WordEnds(names) && Walks(names, text, i, ps) && Unlisted(names, ps)
    requires k < |names| && (WordBefore(text, i) ==> WordBefore(before, |before|)) && q >= |before|
    ensures !FitsAt(names[k], before + Out(ps), q)
    decreases |ps|
  {
    hide *;
    NoEmptyName(names, k);
    if ps == [] {
      NoneAtEnd(names[k], before, q);
    } else {
      var rep := OutOf(ps[0]);
      if q < |before| + |rep| {
        NoneAtHead(names, text, i, ps, before, k, q);
      } else {
        WalksHead(names, text, i, ps);
        UnlistedTail(names, ps);
        WordBehind(names, text, i, ps, before, k);
        NoneLeftFrom(names, text, i + |SourceOf(ps[0])|, ps[1..], before + rep, k, q);
        OutHead(ps);
        Associates(before, rep, Out(ps[1..]));
      }
    }
  }

  lemma NoneAtHead(names: seq<string>, text: string, i: nat, ps: seq<Piece>, before: string, k: nat, q: nat)
    requires i <= |text| && WordEnds(names) && Walks(names, text, i, ps) && Unlisted(names, ps) && ps != []
    requires k < |names| && (WordBefore(text, i) ==> WordBefore(before, |before|))
    requires |before| <= q < |before| + |OutOf(ps[0])|
    ensures !FitsAt(names[k], before + Out(ps), q)
  {
    hide *;
    NoEmptyName(names, k);
    WalksHead(names, text, i, ps);
    if ps[0].Hit? {
      UnlistedTail(names, ps);
      RepOf(ps[0]);
      NoneAtHit(names[k], before, ps, q);
    } else {
      LitOf(ps[0]);
      NothingThere(names, text, i, ps, before, k);
    }
  }

  lemma RepOf(p: Piece)
    requires p.Hit?
    ensures OutOf(p) == p.rep
  {
  }

  lemma LitOf(p: Piece)
    requires p.Lit?
    ensures |OutOf(p)| == 1
  {
  }

  lemma WordBehind(names: seq<string>, text: string, i: nat, ps: seq<Piece>, before: string, k: nat)
    requires i <= |text| && Walks(names, text, i, ps) && Unlisted(names, ps) && k < |names| && ps != []
    requires WordBefore(text, i) ==> WordBefore(before, |before|)
    ensures i + |SourceOf(ps[0])| <= |text|
    ensures var more := before + OutOf(ps[0]);
            WordBefore(text, i + |SourceOf(ps[0])|) ==> WordBefore(more, |more|)
  {
    hide Walks, FitsAt, Unlisted, UnlistedRep, WordBefore;
    WalksHead(names, text, i, ps);
    if ps[0].Hit? {
      UnlistedTail(names, ps);
      UnlistedIsWord(names[k], ps[0].rep);
      HitBefore(before, ps[0].rep);
    } else {
      LitBefore(before, text, i);
    }
  }

  lemma LitBefore(before: string, text: string, i: nat)
    requires i < |text|
    ensures var more := before + [text[i]];
            WordBefore(more, |more|) == WordBefore(text, i + 1)
  {
  }

  lemma HitBefore(before: string, rep: string)
    requires rep != "" && IsWord(rep[|rep| - 1])
    ensures var more := before + rep;
            WordBefore(more, |more|)
  {
    var more := before + rep;
    assert more[|more| - 1] == rep[|rep| - 1];
  }

  lemma RepFollows(before: string, ps: seq<Piece>)
    requires ps != [] && ps[0].Hit?
    ensures Same(before + Out(ps), |before|, ps[0].rep, 0, |ps[0].rep|)
  {
  }

  lemma NoneLeft(names: seq<string>, text: string, ps: seq<Piece>)
    requires WordEnds(names) && Walks(names, text, 0, ps) && Unlisted(names, ps)
    ensures forall q: nat :: NoneStands(names, Out(ps), q)
  {
    hide Walks, Unlisted, FitsAt, WordEnds;
    forall k, q: nat | 0 <= k < |names|
      ensures !FitsAt(names[k], Out(ps), q)
    {
      NoneLeftFrom(names, text, 0, ps, "", k, q);
      assert "" + Out(ps) == Out(ps);
    }
  }

  /** The letters of the name, in whatever case, with no word character right before or right behind them. */
  predicate AloneAt(name: string, text: string, q: nat)
  {
    var e := q + |name|;
    && e <= |text| && Fold(text[q..e]) == Fold(name)
    && !(q > 0 && IsWord(text[q - 1])) && !(e < |text| && IsWord(text[e]))
  }

  /** No listed name stands anywhere as a whole word. */
  ghost predicate NowhereAlone(names: seq<string>, text: string)
  {
    forall k, q: nat :: 0 <= k < |names| ==> !AloneAt(names[k], text, q)
  }

  lemma FoldKeepsWords(a: string, b: string, i: nat)
    requires Fold(a) == Fold(b) && i < |a|
    ensures |a| == |b| && IsWord(a[i]) == IsWord(b[i])
  {
    assert |Fold(a)| == |Fold(b)|;
    assert ToLower(a[i]) == Fold(a)[i] == Fold(b)[i] == ToLower(b[i]);
  }

  /** What the expression looks for is exactly that. */
  lemma FitsIffAlone(name: string, text: string, q: nat)
    requires name != "" && IsWord(name[0]) && IsWord(name[|name| - 1])
    ensures FitsAt(name, text, q) <==> AloneAt(name, text, q)
  {
    var e := q + |name|;
    if e <= |text| && Fold(text[q..e]) == Fold(name) {
      FoldKeepsWords(text[q..e], name, 0);
      FoldKeepsWords(text[q..e], name, |name| - 1);
      assert text[q..e][0] == text[q] && text[q..e][|name| - 1] == text[e - 1];
    }
  }

  lemma NoneStandsIff(names: seq<string>, text: string)
    requires WordEnds(names)
    ensures (forall q: nat :: NoneStands(names, text, q)) <==> NowhereAlone(names, text)
  {
    hide FitsAt, AloneAt, IsWord;
    forall k, q: nat | 0 <= k < |names|
      ensures FitsAt(names[k], text, q) <==> AloneAt(names[k], text, q)
    {
      FitsIffAlone(names[k], text, q);
    }
    if forall q: nat :: NoneStands(names, text, q) {
      forall k, q: nat | 0 <= k < |names|
        ensures !AloneAt(names[k], text, q)
      {
        assert NoneStands(names, text, q);
      }
    }
  }

  /** Redaction is complete. */
  lemma NoNameIsLeft(names: seq<string>, text: string, ps: seq<Piece>)
    requires WordEnds(names) && Scans(names, text, 0, ps) && Unlisted(names, ps)
    ensures NowhereAlone(names, Out(ps))
  {
    hide *;
    ScanWalks(names, text, 0, ps);
    NoneLeft(names, text, ps);
    NoneStandsIff(names, Out(ps));
  }

  /** A later filter does not bring a name back. */
  lemma NoNameComesBack(names: seq<string>, text: string, ps: seq<Piece>)
    requires WordEnds(names) && Plain(ps) && Source(ps) == text && Unlisted(names, ps)
    requires NowhereAlone(names, text)
    ensures NowhereAlone(names, Out(ps))
  {
    hide *;
    NoneStandsIff(names, text);
    assert text[0..] == text;
    FreeTextWalks(names, text, 0, ps);
    NoneLeft(names, text, ps);
    NoneStandsIff(names, Out(ps));
  }
}
