/**
 Where addresses begin and end in a text does not change when words of letters and digits in it are
 replaced by other such words. So what the mail filter needs of the text it is given can be said of the
 text before the user names were replaced.
 */
module Spacing {
  import opened Text
  import opened Pieces
  import opened NameScan
  import opened EmailScan
  import opened EmailLaws

  predicate IsAlnum(c: char) { IsLetter(c) || IsDigit(c) }

  predicate AlnumWord(s: string)
  {
    s != "" && forall i :: 0 <= i < |s| ==> IsAlnum(s[i])
  }

  predicate WordHit(p: Piece)
  {
    p.Lit? || (p.Hit? && AlnumWord(p.orig) && AlnumWord(p.rep))
  }

  /** Only characters, and words replaced by words. */
  predicate WordHits(ps: seq<Piece>)
  {
    forall i :: 0 <= i < |ps| ==> WordHit(ps[i])
  }

  /** A piece, and all of them, before or after. */
  function Side(p: Piece, after: bool): string { if after then OutOf(p) else SourceOf(p) }

  function Whole(ps: seq<Piece>, after: bool): string { if after then Out(ps) else Source(ps) }

  /** Where piece j begins. */
  function At(ps: seq<Piece>, after: bool, j: nat): nat
    requires j <= |ps|
  {
    |Whole(ps[..j], after)|
  }

  lemma WholeConcat(a: seq<Piece>, b: seq<Piece>, after: bool)
    ensures Whole(a + b, after) == Whole(a, after) + Whole(b, after)
  {
    TextsConcat(a, b);
  }

  lemma WholeOne(p: Piece, after: bool)
    ensures Whole([p], after) == Side(p, after)
  {
    OneText(p);
  }

  lemma AtEnds(ps: seq<Piece>, after: bool)
    ensures At(ps, after, 0) == 0 && At(ps, after, |ps|) == |Whole(ps, after)|
  {
    assert ps[..|ps|] == ps && ps[..0] == [];
    NoTexts();
  }

  /** What stands between the beginnings of two pieces. */
  lemma PieceAt(ps: seq<Piece>, after: bool, j: nat)
    requires WordHits(ps) && j < |ps|
    ensures var t, p, q := Whole(ps, after), At(ps, after, j), At(ps, after, j + 1);
            p < q <= |t| && t[p..q] == Side(ps[j], after) && WordHit(ps[j]) && (ps[j].Lit? ==> q == p + 1)
  {
    hide Whole, AlnumWord;
    var front, behind := ps[..j], ps[j + 1..];
    assert ps == front + [ps[j]] + behind && ps[..j + 1] == front + [ps[j]];
    WholeConcat(front, [ps[j]], after);
    WholeConcat(front + [ps[j]], behind, after);
    WholeOne(ps[j], after);
    SideIsThere(ps[j], after);
    Between(Whole(front, after), Side(ps[j], after), Whole(behind, after));
  }

  lemma Between(a: string, b: string, c: string)
    ensures (a + b + c)[|a|..|a| + |b|] == b
  {
  }

  lemma SideIsThere(p: Piece, after: bool)
    requires WordHit(p)
    ensures Side(p, after) != "" && (p.Lit? ==> Side(p, after) == [p.c])
    ensures p.Hit? ==> AlnumWord(Side(p, after))
  {
  }

  /** The character at each place of a piece. */
  lemma CharAt(ps: seq<Piece>, after: bool, j: nat, k: nat)
    requires WordHits(ps) && j < |ps| && At(ps, after, j) <= k < At(ps, after, j + 1)
    ensures var t := Whole(ps, after);
            && k < |t|
            && (ps[j].Lit? ==> t[k] == ps[j].c)
            && (!ps[j].Lit? ==> IsAlnum(t[k]))
  {
    hide Whole, At, IsAlnum;
    PieceAt(ps, after, j);
    SideIsThere(ps[j], after);
    var t, p, q := Whole(ps, after), At(ps, after, j), At(ps, after, j + 1);
    assert t[k] == t[p..q][k - p];
  }

  predicate LocalPiece(p: Piece) { p.Lit? ==> IsLocalChar(p.c) }

  predicate DomainPiece(p: Piece) { p.Lit? ==> IsDomainChar(p.c) }

  predicate WordPiece(p: Piece) { p.Lit? ==> IsWord(p.c) }

  /** The ends of runs, counted in pieces. */
  function LocalPieces(ps: seq<Piece>, j: nat): (r: nat)
    requires j <= |ps|
    ensures j <= r <= |ps|
    decreases |ps| - j
  {
    if j < |ps| && LocalPiece(ps[j]) then LocalPieces(ps, j + 1) else j
  }

  function DomainPiecesFrom(ps: seq<Piece>, j: nat): (r: nat)
    requires j <= |ps|
    ensures j <= r <= |ps|
    decreases |ps| - j
  {
    if j < |ps| && DomainPiece(ps[j]) then DomainPiecesFrom(ps, j + 1) else j
  }

  function DotPieces(ps: seq<Piece>, j: nat): (r: nat)
    requires j <= |ps|
    ensures j <= r <= |ps|
    decreases |ps| - j
  {
    if j < |ps| && ps[j] == Lit('.') && DomainPiecesFrom(ps, j + 1) > j + 1 then
      DotPieces(ps, DomainPiecesFrom(ps, j + 1))
    else j
  }

  lemma {:induction false} LocalEndAt(ps: seq<Piece>, after: bool, j: nat)
    requires WordHits(ps) && j <= |ps|
    ensures At(ps, after, j) <= |Whole(ps, after)|
    ensures LocalEnd(Whole(ps, after), At(ps, after, j)) == At(ps, after, LocalPieces(ps, j))
    decreases |ps| - j
  {
    hide Whole, At, WordHits;
    AtEnds(ps, after);
    if j < |ps| {
      var t, p, q := Whole(ps, after), At(ps, after, j), At(ps, after, j + 1);
      PieceAt(ps, after, j);
      forall k | p <= k < q
        ensures IsLocalChar(t[k]) == LocalPiece(ps[j])
      {
        CharAt(ps, after, j, k);
      }
      if LocalPiece(ps[j]) {
        LocalEndAt(ps, after, j + 1);
        LocalEndIs(t, p, LocalEnd(t, q));
      }
    }
  }

  lemma {:induction false} DomainRunAt(ps: seq<Piece>, after: bool, j: nat)
    requires WordHits(ps) && j <= |ps|
    ensures At(ps, after, j) <= |Whole(ps, after)|
    ensures DomainRun(Whole(ps, after), At(ps, after, j)) == At(ps, after, DomainPiecesFrom(ps, j))
    decreases |ps| - j
  {
    hide Whole, At, WordHits;
    AtEnds(ps, after);
    if j < |ps| {
      var t, p, q := Whole(ps, after), At(ps, after, j), At(ps, after, j + 1);
      PieceAt(ps, after, j);
      forall k | p <= k < q
        ensures IsDomainChar(t[k]) == DomainPiece(ps[j])
      {
        CharAt(ps, after, j, k);
      }
      if DomainPiece(ps[j]) {
        DomainRunAt(ps, after, j + 1);
        DomainRunIs(t, p, DomainRun(t, q));
      }
    }
  }

  lemma {:induction false} LaterAt(ps: seq<Piece>, after: bool, i: nat, j: nat)
    requires WordHits(ps) && i <= j <= |ps|
    ensures At(ps, after, i) <= At(ps, after, j) && (i < j ==> At(ps, after, i) < At(ps, after, j))
    decreases j - i
  {
    hide Whole, At, WordHits;
    if i < j {
      PieceAt(ps, after, i);
      LaterAt(ps, after, i + 1, j);
    }
  }

  /** A further label begins behind this piece. */
  lemma DotAt(ps: seq<Piece>, after: bool, j: nat)
    requires WordHits(ps) && j < |ps|
    ensures var t, p := Whole(ps, after), At(ps, after, j);
            && p < |t| && (t[p] == '.' <==> ps[j] == Lit('.'))
            && (ps[j] == Lit('.') ==>
                  && DomainRun(t, p + 1) == At(ps, after, DomainPiecesFrom(ps, j + 1))
                  && (DomainRun(t, p + 1) > p + 1 <==> DomainPiecesFrom(ps, j + 1) > j + 1))
  {
    hide Whole, At, WordHits, DomainRun, DomainPiecesFrom;
    PieceAt(ps, after, j);
    CharAt(ps, after, j, At(ps, after, j));
    if ps[j] == Lit('.') {
      DomainRunAt(ps, after, j + 1);
      LaterAt(ps, after, j + 1, DomainPiecesFrom(ps, j + 1));
    }
  }

  lemma {:induction false} DotRunsAt(ps: seq<Piece>, after: bool, j: nat)
    requires WordHits(ps) && j <= |ps|
    ensures At(ps, after, j) <= |Whole(ps, after)|
    ensures DotRuns(Whole(ps, after), At(ps, after, j)) == At(ps, after, DotPieces(ps, j))
    decreases |ps| - j
  {
    hide Whole, At, WordHits, DomainRun, DomainPiecesFrom;
    AtEnds(ps, after);
    if j < |ps| {
      DotAt(ps, after, j);
      if ps[j] == Lit('.') && DomainPiecesFrom(ps, j + 1) > j + 1 {
        DotRunsAt(ps, after, DomainPiecesFrom(ps, j + 1));
      }
    }
  }

  predicate BoundaryPiece(ps: seq<Piece>, j: nat)
    requires j < |ps|
  {
    (j > 0 && WordPiece(ps[j - 1])) != WordPiece(ps[j])
  }

  /** An address begins with piece j. */
  predicate MatchPiece(ps: seq<Piece>, j: nat)
    requires j < |ps|
  {
    && BoundaryPiece(ps, j)
    && var a := LocalPieces(ps, j);
       a > j && a < |ps| && ps[a] == Lit('@') && DomainPiecesFrom(ps, a + 1) > a + 1
  }

  function MatchPieceEnd(ps: seq<Piece>, j: nat): (e: nat)
    requires j < |ps| && MatchPiece(ps, j)
    ensures j < e <= |ps|
  {
    DotPieces(ps, DomainPiecesFrom(ps, LocalPieces(ps, j) + 1))
  }

  lemma WordAt(ps: seq<Piece>, after: bool, j: nat, k: nat)
    requires WordHits(ps) && j < |ps| && At(ps, after, j) <= k < At(ps, after, j + 1)
    ensures k < |Whole(ps, after)| && IsWord(Whole(ps, after)[k]) == WordPiece(ps[j])
  {
    hide Whole, At, WordHits;
    CharAt(ps, after, j, k);
  }

  lemma BoundaryAt(ps: seq<Piece>, after: bool, j: nat)
    requires WordHits(ps) && j < |ps|
    ensures At(ps, after, j) < |Whole(ps, after)|
    ensures Boundary(Whole(ps, after), At(ps, after, j)) == BoundaryPiece(ps, j)
  {
    hide Whole, At, WordHits, IsWord, WordPiece;
    AtEnds(ps, after);
    PieceAt(ps, after, j);
    WordAt(ps, after, j, At(ps, after, j));
    if j > 0 {
      PieceAt(ps, after, j - 1);
      WordAt(ps, after, j - 1, At(ps, after, j) - 1);
    }
  }

  /** The at sign behind a local part, and the domain behind that. */
  lemma AtSignAt(ps: seq<Piece>, after: bool, a: nat)
    requires WordHits(ps) && a < |ps| && !LocalPiece(ps[a])
    ensures var t, p := Whole(ps, after), At(ps, after, a);
            && p < |t| && (t[p] == '@' <==> ps[a] == Lit('@'))
            && DomainRun(t, p + 1) == At(ps, after, DomainPiecesFrom(ps, a + 1))
            && (DomainRun(t, p + 1) > p + 1 <==> DomainPiecesFrom(ps, a + 1) > a + 1)
  {
    hide Whole, At, WordHits, DomainRun, DomainPiecesFrom;
    PieceAt(ps, after, a);
    CharAt(ps, after, a, At(ps, after, a));
    DomainRunAt(ps, after, a + 1);
    LaterAt(ps, after, a + 1, DomainPiecesFrom(ps, a + 1));
  }

  lemma {:induction false} LocalPiecesStop(ps: seq<Piece>, j: nat)
    requires j <= |ps|
    ensures var a := LocalPieces(ps, j); a < |ps| ==> !LocalPiece(ps[a])
    decreases |ps| - j
  {
    if j < |ps| && LocalPiece(ps[j]) {
      LocalPiecesStop(ps, j + 1);
    }
  }

  /** Addresses begin with the same pieces before and after. */
  lemma MatchAtPiece(ps: seq<Piece>, after: bool, j: nat)
    requires WordHits(ps) && j < |ps|
    ensures MatchAt(Whole(ps, after), At(ps, after, j)) == MatchPiece(ps, j)
  {
    hide Whole, At, WordHits, DomainRun, DomainPiecesFrom, LocalEnd, LocalPieces, Boundary, BoundaryPiece, LocalPiece;
    var t, a := Whole(ps, after), LocalPieces(ps, j);
    AtEnds(ps, after);
    BoundaryAt(ps, after, j);
    LocalEndAt(ps, after, j);
    LocalPiecesStop(ps, j);
    LaterAt(ps, after, j, a);
    LaterAt(ps, after, a, |ps|);
    if a < |ps| {
      AtSignAt(ps, after, a);
    }
  }

  /** And they end with the same ones. */
  lemma MatchEndPiece(ps: seq<Piece>, after: bool, j: nat)
    requires WordHits(ps) && j < |ps| && MatchPiece(ps, j)
    ensures MatchAt(Whole(ps, after), At(ps, after, j))
    ensures MatchEnd(Whole(ps, after), At(ps, after, j)) == At(ps, after, MatchPieceEnd(ps, j))
  {
    hide Whole, At, WordHits, DomainRun, DomainPiecesFrom, LocalEnd, LocalPieces, DotRuns, DotPieces, Boundary,
      BoundaryPiece, LocalPiece, MatchAt;
    MatchAtPiece(ps, after, j);
    LocalEndAt(ps, after, j);
    LocalPiecesStop(ps, j);
    var a := LocalPieces(ps, j);
    AtSignAt(ps, after, a);
    DotRunsAt(ps, after, DomainPiecesFrom(ps, a + 1));
  }

  /** Well spaced addresses, counted in pieces. */
  predicate SpacedPieces(ps: seq<Piece>, j: nat, afterMatch: bool)
    requires j <= |ps|
    decreases |ps| - j
  {
    if j == |ps| then true
    else if MatchPiece(ps, j) then !afterMatch && WordPiece(ps[j]) && SpacedPieces(ps, MatchPieceEnd(ps, j), true)
    else SpacedPieces(ps, j + 1, false)
  }

  /** Where no address begins the scan goes on. */
  lemma {:induction false} SpacedFurther(text: string, p: nat, q: nat)
    requires p <= q <= |text| && forall k :: p <= k < q ==> !MatchAt(text, k)
    ensures Spaced(text, p, false) == Spaced(text, q, false)
    decreases q - p
  {
    hide MatchAt;
    if p < q {
      SpacedFurther(text, p + 1, q);
    }
  }

  lemma SpacedOn(text: string, p: nat, q: nat, afterMatch: bool)
    requires p < q <= |text| && forall k :: p <= k < q ==> !MatchAt(text, k)
    ensures Spaced(text, p, afterMatch) == Spaced(text, q, false)
  {
    hide MatchAt;
    SpacedFurther(text, p + 1, q);
  }

  /** No address begins within a word. */
  lemma NoneWithin(ps: seq<Piece>, after: bool, j: nat, k: nat)
    requires WordHits(ps) && j < |ps| && At(ps, after, j) < k < At(ps, after, j + 1)
    ensures !MatchAt(Whole(ps, after), k)
  {
    hide Whole, At, WordHits, IsWord, WordPiece;
    PieceAt(ps, after, j);
    WordAt(ps, after, j, k);
    WordAt(ps, after, j, k - 1);
  }

  lemma {:induction false} SpacedAt(ps: seq<Piece>, after: bool, j: nat, afterMatch: bool)
    requires WordHits(ps) && j <= |ps|
    ensures At(ps, after, j) <= |Whole(ps, after)|
    ensures Spaced(Whole(ps, after), At(ps, after, j), afterMatch) == SpacedPieces(ps, j, afterMatch)
    decreases |ps| - j
  {
    hide Whole, At, WordHits, MatchAt, MatchEnd, MatchPiece, MatchPieceEnd, IsWord, WordPiece;
    AtEnds(ps, after);
    if j < |ps| {
      var t, p, q := Whole(ps, after), At(ps, after, j), At(ps, after, j + 1);
      PieceAt(ps, after, j);
      MatchAtPiece(ps, after, j);
      WordAt(ps, after, j, p);
      if MatchPiece(ps, j) {
        MatchEndPiece(ps, after, j);
        SpacedAt(ps, after, MatchPieceEnd(ps, j), true);
      } else {
        forall k | p <= k < q
          ensures !MatchAt(t, k)
        {
          if k > p {
            NoneWithin(ps, after, j, k);
          }
        }
        SpacedOn(t, p, q, afterMatch);
        SpacedAt(ps, after, j + 1, false);
      }
    }
  }

  /** Replacing words by words keeps addresses as well spaced as they are. */
  lemma SpacedCarriesOver(ps: seq<Piece>)
    requires WordHits(ps)
    ensures Spaced(Source(ps), 0, false) <==> Spaced(Out(ps), 0, false)
  {
    hide At, WordHits, Spaced, SpacedPieces;
    AtEnds(ps, false);
    AtEnds(ps, true);
    SpacedAt(ps, false, 0, false);
    SpacedAt(ps, true, 0, false);
  }

  /** Listed names of letters and digits only. */
  predicate AlnumNames(names: seq<string>)
  {
    forall k :: 0 <= k < |names| ==> AlnumWord(names[k])
  }

  lemma FoldedAlnum(a: string, b: string)
    requires Fold(a) == Fold(b) && AlnumWord(b)
    ensures AlnumWord(a)
  {
    assert |a| == |Fold(a)| == |b|;
    forall i | 0 <= i < |a|
      ensures IsAlnum(a[i])
    {
      assert ToLower(a[i]) == Fold(a)[i] == Fold(b)[i] == ToLower(b[i]);
    }
  }

  lemma FoundIsAlnum(names: seq<string>, text: string, i: nat)
    requires AlnumNames(names) && LongestFit(names, text, i) > 0
    ensures AlnumWord(text[i..i + LongestFit(names, text, i)])
  {
    hide LongestFit, AlnumWord;
    LongestFitIsLongest(names, text, i);
    var n := LongestFit(names, text, i);
    var k :| 0 <= k < |names| && |names[k]| == n && FitsAt(names[k], text, i);
    FoldedAlnum(text[i..i + n], names[k]);
  }

  lemma WordHitsFrom(ps: seq<Piece>)
    requires ps != [] && WordHit(ps[0]) && WordHits(ps[1..])
    ensures WordHits(ps)
  {
    assert forall i :: 1 <= i < |ps| ==> ps[i] == ps[1..][i - 1];
  }

  /** What a names filter replaces are words then. */
  lemma {:induction false} ScanHasWordHits(names: seq<string>, text: string, i: nat, ps: seq<Piece>)
    requires i <= |text| && Scans(names, text, i, ps) && AlnumNames(names)
    requires forall k :: 0 <= k < |ps| && ps[k].Hit? ==> AlnumWord(ps[k].rep)
    ensures WordHits(ps)
    decreases |text| - i
  {
    hide LongestFit, AlnumWord, AlnumNames;
    if i < |text| {
      ScansHead(names, text, i, ps);
      if ps[0].Hit? {
        FoundIsAlnum(names, text, i);
      }
      ScanHasWordHits(names, text, i + Step(names, text, i), ps[1..]);
      WordHitsFrom(ps);
    }
  }
}
