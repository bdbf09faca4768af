/** What a scan for addresses guarantees: nothing but labels changes, and labels stand apart. */
module EmailLaws {
  import opened Text
  import opened Pieces
  import opened RoundTrip
  import opened EmailScan

  lemma LocalEndIs(text: string, i: nat, j: nat)
    requires i <= j <= |text| && (j < |text| ==> !IsLocalChar(text[j]))
    requires forall k :: i <= k < j ==> IsLocalChar(text[k])
    ensures LocalEnd(text, i) == j
  {
  }

  lemma DomainRunIs(text: string, i: nat, j: nat)
    requires i <= j <= |text| && (j < |text| ==> !IsDomainChar(text[j]))
    requires forall k :: i <= k < j ==> IsDomainChar(text[k])
    ensures DomainRun(text, i) == j
  {
  }

  lemma DomainRunSlice(text: string, i: nat, e: nat, q: nat)
    requires i <= q <= e <= |text| && DomainRun(text, q) <= e
    ensures DomainRun(text[i..e], q - i) == DomainRun(text, q) - i
  {
    hide IsDomainChar;
    var found, r := text[i..e], DomainRun(text, q);
    forall k | q - i <= k < r - i
      ensures IsDomainChar(found[k])
    {
      assert found[k] == text[i + k];
    }
    assert r < e ==> found[r - i] == text[r];
    DomainRunIs(found, q - i, r - i);
  }

  lemma {:induction false} DotRunsSlice(text: string, i: nat, e: nat, q: nat)
    requires i <= q <= |text| && DotRuns(text, q) == e
    ensures DotRuns(text[i..e], q - i) == e - i
    decreases |text| - q
  {
    hide IsDomainChar, DomainRun;
    if q < e {
      var r := DomainRun(text, q + 1);
      DotRunsSlice(text, i, e, r);
      DomainRunSlice(text, i, e, q + 1);
      assert text[i..e][q - i] == text[q];
    }
  }

  lemma {:induction false} DotRunsChars(text: string, q: nat, k: nat)
    requires q <= |text| && q <= k < DotRuns(text, q)
    ensures IsDomainChar(text[k]) || text[k] == '.'
    decreases |text| - q
  {
    if k > q && k >= DomainRun(text, q + 1) {
      DotRunsChars(text, DomainRun(text, q + 1), k);
    }
  }

  lemma {:induction false} DotRunsStops(text: string, q: nat)
    requires q <= |text| && (q < |text| ==> !IsDomainChar(text[q]))
    ensures var e := DotRuns(text, q); e < |text| ==> !IsDomainChar(text[e])
    decreases |text| - q
  {
    if q < |text| && text[q] == '.' && DomainRun(text, q + 1) > q + 1 {
      DotRunsStops(text, DomainRun(text, q + 1));
    }
  }

  /** Behind a match there is no letter. */
  lemma MatchStops(text: string, i: nat)
    requires MatchAt(text, i)
    ensures var e := MatchEnd(text, i); e < |text| ==> !IsLetter(text[e])
  {
    DotRunsStops(text, DomainRun(text, LocalEnd(text, i) + 1));
  }

  lemma MatchChars(text: string, i: nat, k: nat)
    requires MatchAt(text, i) && i <= k < MatchEnd(text, i)
    ensures (text[k] == '@') == (k == LocalEnd(text, i))
  {
    var a := LocalEnd(text, i);
    var r := DomainRun(text, a + 1);
    if k >= r {
      DotRunsChars(text, r, k);
    }
  }

  /** An at sign of a match looked at by itself is the one of the match. */
  lemma InnerAt(text: string, i: nat, s: nat)
    requires MatchAt(text, i) && s <= MatchEnd(text, i) - i
    requires MatchAt(text[i..MatchEnd(text, i)], s)
    ensures var found := text[i..MatchEnd(text, i)];
            LocalEnd(found, s) == LocalEnd(text, i) - i
  {
    hide LocalEnd, DomainRun, DotRuns, MatchEnd, IsLocalChar, IsDomainChar, Boundary;
    var found := text[i..MatchEnd(text, i)];
    var b := LocalEnd(found, s);
    assert found[b] == '@' == text[i + b];
    MatchChars(text, i, i + b);
  }

  /** The domain behind that at sign ends with the match. */
  lemma InnerEnd(text: string, i: nat)
    requires MatchAt(text, i)
    ensures var a, e := LocalEnd(text, i), MatchEnd(text, i);
            && DomainRun(text, a + 1) <= e
            && DotRuns(text[i..e], DomainRun(text[i..e], a + 1 - i)) == e - i
  {
    hide LocalEnd, DomainRun, DotRuns, IsLocalChar, IsDomainChar, Boundary;
    var a, e := LocalEnd(text, i), MatchEnd(text, i);
    DomainRunSlice(text, i, e, a + 1);
    DotRunsSlice(text, i, e, DomainRun(text, a + 1));
  }

  /** Looked at by itself, a match has the same at sign, and ends where it ends. */
  lemma InnerAlike(text: string, i: nat, s: nat)
    requires MatchAt(text, i) && s <= MatchEnd(text, i) - i
    requires MatchAt(text[i..MatchEnd(text, i)], s)
    ensures var found := text[i..MatchEnd(text, i)];
            LocalEnd(found, s) == LocalEnd(text, i) - i && MatchEnd(found, s) == |found|
  {
    hide LocalEnd, DomainRun, DotRuns, IsLocalChar, IsDomainChar, Boundary, MatchAt;
    InnerAt(text, i, s);
    InnerEnd(text, i);
  }

  lemma MatchParts(text: string, i: nat)
    requires MatchAt(text, i)
    ensures i < |text|
    ensures var a, e := LocalEnd(text, i), MatchEnd(text, i);
            && i < a < e <= |text| && text[a] == '@'
            && a + 1 < DomainRun(text, a + 1) <= e
  {
  }

  lemma MatchFrom(text: string, i: nat, a: nat)
    requires i < a < |text| && Boundary(text, i) && LocalEnd(text, i) == a
    requires text[a] == '@' && DomainRun(text, a + 1) > a + 1
    ensures MatchAt(text, i)
  {
  }

  lemma LocalEndSlice(text: string, i: nat, e: nat, k: nat)
    requires i <= k && i <= |text| && k <= LocalEnd(text, i) < e <= |text|
    ensures LocalEnd(text[i..e], k - i) == LocalEnd(text, i) - i
  {
    hide IsLocalChar;
    var found, a := text[i..e], LocalEnd(text, i);
    forall q | k - i <= q < a - i
      ensures IsLocalChar(found[q])
    {
      assert found[q] == text[i + q];
    }
    assert found[a - i] == text[a];
    LocalEndIs(found, k - i, a - i);
  }

  /** In a match by itself an address begins at every boundary within the local part. */
  lemma MatchesWithin(text: string, i: nat, k: nat)
    requires MatchAt(text, i) && i <= k < LocalEnd(text, i) && Boundary(text[i..MatchEnd(text, i)], k - i)
    ensures MatchAt(text[i..MatchEnd(text, i)], k - i)
  {
    hide *;
    MatchParts(text, i);
    var a, e := LocalEnd(text, i), MatchEnd(text, i);
    LocalEndSlice(text, i, e, k);
    DomainRunSlice(text, i, e, a + 1);
    assert text[i..e][a - i] == text[a];
    MatchFrom(text[i..e], k - i, a - i);
  }

  /** A match that begins with a word character is matched again as a whole. */
  lemma InnerIsWhole(text: string, i: nat)
    requires MatchAt(text, i) && IsWord(text[i])
    ensures var found := text[i..MatchEnd(text, i)]; InnerStart(found, 0) == 0
  {
    hide MatchAt, LocalEnd, MatchEnd, IsWord;
    MatchParts(text, i);
    assert text[i..MatchEnd(text, i)][0] == text[i];
    MatchesWithin(text, i, i);
  }

  /** A match that begins otherwise loses its first character, unless no address is found in it at all. */
  lemma InnerIsLess(text: string, i: nat)
    requires MatchAt(text, i) && !IsWord(text[i])
    ensures InnerStart(text[i..MatchEnd(text, i)], 0) > 0
  {
    var found := text[i..MatchEnd(text, i)];
    assert found[0] == text[i];
    assert !Boundary(found, 0);
  }

  lemma FlankedConcat(a: seq<Piece>, b: seq<Piece>)
    requires Flanked(a) && Flanked(b)
    requires a != [] && b != [] && Asks(a[|a| - 1]) ==> IsBreak(b[0])
    requires a != [] && b != [] && Asks(b[0]) ==> IsBreak(a[|a| - 1])
    ensures Flanked(a + b)
  {
  }

  type Suffixes = map<string, string>

  /** Behind a label and a dot there is another label, or no letter. */
  predicate DotFollows(ps: seq<Piece>, i: nat)
    requires i < |ps|
  {
    i + 2 < |ps| && ps[i + 1] == Lit('.') && ps[i + 2].Lit? ==> !IsLetter(ps[i + 2].c)
  }

  predicate InPlace(suffixes: Suffixes, ps: seq<Piece>, i: nat)
    requires i < |ps|
  {
    match ps[i]
    case Lit(_) => true
    case Hit(_, _) => "*" in suffixes ==> DotFollows(ps, i)
    case Combo(part, tld, _, suffix) => part != "" && IsAlpha(tld) && SuffixFor(suffixes, tld) == Replace(suffix)
    case Gone(_) => false
  }

  /** Only characters and replacements, the latter apart from each other. */
  predicate Tidy(suffixes: Suffixes, ps: seq<Piece>)
  {
    Flanked(ps) && forall i :: 0 <= i < |ps| ==> InPlace(suffixes, ps, i)
  }

  /** Without suffixes, only characters and single labels. */
  lemma TidyIsPlain(ps: seq<Piece>)
    requires Tidy(map[], ps)
    ensures Plain(ps) && Flanked(ps)
  {
    forall i | 0 <= i < |ps|
      ensures ps[i].Lit? || ps[i].Hit?
    {
      assert InPlace(map[], ps, i);
    }
  }

  /** A label at the end of a, and a dot, do not meet a letter of b. */
  predicate Meets(a: seq<Piece>, b: seq<Piece>)
  {
    && (a != [] && a[|a| - 1].Hit? && |b| > 1 && b[0] == Lit('.') && b[1].Lit? ==> !IsLetter(b[1].c))
    && (|a| > 1 && a[|a| - 2].Hit? && a[|a| - 1] == Lit('.') && b != [] && b[0].Lit? ==> !IsLetter(b[0].c))
  }

  lemma TidyConcat(suffixes: Suffixes, a: seq<Piece>, b: seq<Piece>)
    requires Tidy(suffixes, a) && Tidy(suffixes, b)
    requires a != [] && b != [] && Asks(a[|a| - 1]) ==> IsBreak(b[0])
    requires a != [] && b != [] && Asks(b[0]) ==> IsBreak(a[|a| - 1])
    requires "*" in suffixes ==> Meets(a, b)
    ensures Tidy(suffixes, a + b)
  {
    hide Flanked, IsBreak;
    FlankedConcat(a, b);
    var ps := a + b;
    forall i | 0 <= i < |ps|
      ensures InPlace(suffixes, ps, i)
    {
      if i < |a| {
        assert InPlace(suffixes, a, i);
      } else {
        assert InPlace(suffixes, b, i - |a|);
      }
    }
  }

  lemma TidyBehindBreak(suffixes: Suffixes, a: seq<Piece>, p: Piece, b: seq<Piece>)
    requires Tidy(suffixes, a) && IsBreak(p) && Tidy(suffixes, b)
    requires "*" in suffixes && p == Lit('.') && b != [] ==> Asks(b[0])
    ensures Tidy(suffixes, a + [p] + b)
  {
    hide Tidy;
    OneLitIsTidy(suffixes, p.c);
    TidyConcat(suffixes, a, [p]);
    TidyConcat(suffixes, a + [p], b);
  }

  lemma LitsAreTidy(suffixes: Suffixes, text: string)
    ensures Tidy(suffixes, Lits(text))
  {
  }

  /** The piece for one label. */
  lemma LabelLaws(suffixes: Suffixes, part: string, ps: seq<Piece>)
    requires |ps| == LabelCount(part) && (part != "" ==> ps[0].Hit? && ps[0].orig == part)
    ensures Tidy(suffixes, ps) && Source(ps) == part && (ps != [] ==> Asks(ps[0]))
  {
  }

  lemma LabelsLeft(part: string)
    ensures LabelCount(part) == if part == "" then 0 else 1
  {
  }

  lemma LabelledParts(labels: seq<string>, ps: seq<Piece>)
    requires |labels| > 1 && Labelled(labels, ps)
    ensures var k := |labels| - 1;
            var j := PieceCount(labels[..k]);
            && |ps| == j + 1 + LabelCount(labels[k]) && ps[j] == Lit('.')
            && Labelled(labels[..k], ps[..j])
            && (labels[k] != "" ==> ps[j + 1].Hit? && ps[j + 1].orig == labels[k])
  {
    hide PieceCount, LabelCount;
    CountParts(labels);
  }

  lemma CountParts(labels: seq<string>)
    requires |labels| > 1
    ensures var k := |labels| - 1;
            PieceCount(labels) == PieceCount(labels[..k]) + 1 + LabelCount(labels[k])
  {
  }

  lemma SplitAround(ps: seq<Piece>, j: nat)
    requires j < |ps|
    ensures ps == ps[..j] + [ps[j]] + ps[j + 1..]
    ensures |ps[j + 1..]| == |ps| - j - 1
    ensures j + 1 < |ps| ==> ps[j + 1..][0] == ps[j + 1]
  {
  }

  lemma {:induction false} LabelledLaws(suffixes: Suffixes, labels: seq<string>, ps: seq<Piece>)
    requires labels != [] && Labelled(labels, ps)
    ensures Tidy(suffixes, ps) && Source(ps) == JoinDots(labels)
    decreases |labels|
  {
    if |labels| == 1 {
      LabelLaws(suffixes, labels[0], ps);
      JoinOne(labels);
    } else {
      hide *;
      var k, dot := |labels| - 1, Lit('.');
      LabelledParts(labels, ps);
      var j := PieceCount(labels[..k]);
      SplitAround(ps, j);
      LabelsLeft(labels[k]);
      var a, b := ps[..j], ps[j + 1..];
      LabelledLaws(suffixes, labels[..k], a);
      LabelLaws(suffixes, labels[k], b);
      DottedLits("");
      OneText(dot);
      TidyBehindBreak(suffixes, a, dot, b);
      ThreeSources(a, dot, b);
      JoinLast(labels);
    }
  }

  lemma ThreeSources(a: seq<Piece>, p: Piece, b: seq<Piece>)
    ensures Source(a + [p] + b) == Source(a) + SourceOf(p) + Source(b)
    ensures Out(a + [p] + b) == Out(a) + OutOf(p) + Out(b)
  {
    hide *;
    TextsConcat(a + [p], b);
    TextsConcat(a, [p]);
    OneText(p);
  }

  /** Seen from the last label. */
  lemma {:induction false} JoinLast(labels: seq<string>)
    requires |labels| > 1
    ensures JoinDots(labels) == JoinDots(labels[..|labels| - 1]) + "." + labels[|labels| - 1]
  {
    var front := labels[..|labels| - 1];
    if |labels| > 2 {
      JoinLast(labels[1..]);
      assert labels[1..][..|labels| - 2] == front[1..];
    }
  }

  /** The labels and the top-level domain together are the domain. */
  lemma SplitDomainJoins(domain: string)
    ensures var (labels, tld) := SplitDomain(domain);
            domain == JoinDots(labels) + if tld == "" then "" else "." + tld
  {
    JoinSplit(domain);
    var labels := Split(domain);
    if |labels| > 1 {
      JoinLast(labels);
    }
  }

  lemma DottedLits(text: string)
    ensures Lits("." + text) == [Lit('.')] + Lits(text)
    ensures Source([Lit('.')]) == "." && IsBreak(Lit('.'))
  {
  }

  lemma KeptDomain(suffixes: Suffixes, labels: seq<string>, tld: string, ps: seq<Piece>)
    requires "*" !in suffixes && labels != [] && |ps| == PieceCount(labels) + 1 + |tld|
    requires Labelled(labels, ps[..PieceCount(labels)]) && ps[PieceCount(labels)..] == Lits("." + tld)
    ensures Tidy(suffixes, ps) && Source(ps) == JoinDots(labels) + ("." + tld)
  {
    hide *;
    var n, dot := PieceCount(labels), Lit('.');
    LabelledLaws(suffixes, labels, ps[..n]);
    LitsAreTidy(suffixes, tld);
    LitsTexts("." + tld);
    DottedLits(tld);
    TidyBehindBreak(suffixes, ps[..n], dot, Lits(tld));
    assert ps[..n] + [dot] + Lits(tld) == ps[..n] + ps[n..] == ps;
    TextsConcat(ps[..n], ps[n..]);
  }

  /** The last label with its top-level domain, seen as the label alone. */
  lemma ComboDomain(suffixes: Suffixes, labels: seq<string>, tld: string, ps: seq<Piece>, combo: Piece)
    requires labels != [] && ps != [] && combo.Combo? && combo.part == labels[|labels| - 1] && combo.tld == tld
    requires IsAlpha(tld) && SuffixFor(suffixes, tld) == Replace(combo.suffix)
    requires ps[|ps| - 1] == combo && Labelled(labels, ps[|ps| - 1 := Hit(combo.part, combo.rep)])
    ensures Tidy(suffixes, ps) && Source(ps) == JoinDots(labels) + ("." + tld)
  {
    hide *;
    var n := |ps| - 1;
    var hit := Hit(combo.part, combo.rep);
    var qs := ps[n := hit];
    LabelledLaws(suffixes, labels, qs);
    LastLabelIsHit(labels, qs);
    LastIsTidy(suffixes, qs, ps, combo);
    var front := ps[..n];
    assert ps == front + [combo] && qs == front + [hit];
    TextsConcat(front, [combo]);
    TextsConcat(front, [hit]);
    OneText(combo);
    OneText(hit);
    ComboText(combo);
    Associates(Source(front), combo.part, "." + tld);
  }

  lemma ComboText(p: Piece)
    requires p.Combo?
    ensures SourceOf(p) == p.part + ("." + p.tld) && SourceOf(Hit(p.part, p.rep)) == p.part
  {
  }

  lemma LastLabelIsHit(labels: seq<string>, ps: seq<Piece>)
    requires labels != [] && Labelled(labels, ps) && ps != [] && ps[|ps| - 1].Hit?
    ensures labels[|labels| - 1] != ""
  {
  }

  lemma LastIsTidy(suffixes: Suffixes, qs: seq<Piece>, ps: seq<Piece>, combo: Piece)
    requires Tidy(suffixes, qs) && qs != [] && qs[|qs| - 1].Hit? && combo.Combo? && ps == qs[|qs| - 1 := combo]
    requires combo.part != "" && IsAlpha(combo.tld) && SuffixFor(suffixes, combo.tld) == Replace(combo.suffix)
    ensures Tidy(suffixes, ps)
  {
    forall i | 0 <= i < |ps| && Asks(ps[i])
      ensures FlankedAt(ps, i)
    {
      assert FlankedAt(qs, i);
    }
    forall i | 0 <= i < |ps|
      ensures InPlace(suffixes, ps, i)
    {
      assert InPlace(suffixes, qs, i);
    }
  }

  lemma KeptHasNoFallback(suffixes: Suffixes, tld: string)
    requires SuffixFor(suffixes, tld).Keep?
    ensures "*" !in suffixes
  {
  }

  lemma DomainLaws(suffixes: Suffixes, domain: string, ps: seq<Piece>)
    requires DomainPieces(suffixes, domain, ps)
    ensures Tidy(suffixes, ps) && Source(ps) == domain
  {
    hide Labelled, PieceCount, Tidy, Split, SuffixFor;
    var (labels, tld) := SplitDomain(domain);
    SplitDomainJoins(domain);
    if tld == "" {
      LabelledLaws(suffixes, labels, ps);
      assert JoinDots(labels) + "" == JoinDots(labels);
    } else {
      SplitTLDIsAlpha(domain);
      if SuffixFor(suffixes, tld).Keep? {
        KeptHasNoFallback(suffixes, tld);
        KeptDomain(suffixes, labels, tld, ps);
      } else {
        ComboDomain(suffixes, labels, tld, ps, ps[|ps| - 1]);
      }
    }
  }

  lemma SplitTLDIsAlpha(domain: string)
    ensures var (_, tld) := SplitDomain(domain);
            tld == "" || IsAlpha(tld)
  {
  }

  lemma AddressLaws(suffixes: Suffixes, local: string, domain: string, ps: seq<Piece>)
    requires AddressPieces(suffixes, local, domain, ps)
    ensures Tidy(suffixes, ps) && Source(ps) == local + "@" + domain
  {
    hide Labelled, PieceCount, Split, DomainPieces, Tidy, Source;
    var n := PieceCount(Split(local));
    LabelledLaws(suffixes, Split(local), ps[..n]);
    JoinSplit(local);
    DomainLaws(suffixes, domain, ps[n + 1..]);
    assert ps == ps[..n] + [ps[n]] + ps[n + 1..];
    TidyBehindBreak(suffixes, ps[..n], ps[n], ps[n + 1..]);
    ThreeSources(ps[..n], ps[n], ps[n + 1..]);
  }

  /**
   Addresses begin with a word character and are kept apart by at least one character that belongs to
   none of them.
   */
  predicate Spaced(text: string, i: nat, afterMatch: bool)
    requires i <= |text|
    decreases |text| - i
  {
    if i == |text| then true
    else if MatchAt(text, i) then !afterMatch && IsWord(text[i]) && Spaced(text, MatchEnd(text, i), true)
    else Spaced(text, i + 1, false)
  }

  lemma WholeMatch(suffixes: Suffixes, text: string, i: nat, ps: seq<Piece>)
    requires MatchAt(text, i) && IsWord(text[i])
    requires MatchPieces(suffixes, text[i..MatchEnd(text, i)], ps)
    ensures Tidy(suffixes, ps) && Source(ps) == text[i..MatchEnd(text, i)] && ps != []
  {
    hide LocalEnd, DomainRun, DotRuns, Boundary, AddressPieces, Tidy, AddressCount;
    var e := MatchEnd(text, i);
    var found := text[i..e];
    InnerIsWhole(text, i);
    InnerAlike(text, i, 0);
    WholeAddress(suffixes, found, ps);
  }

  lemma CutFound(found: string, a: nat)
    requires a < |found| && found[a] == '@'
    ensures found == found[0..a] + "@" + found[a + 1..|found|]
  {
  }

  lemma WholeAddress(suffixes: Suffixes, found: string, ps: seq<Piece>)
    requires MatchPieces(suffixes, found, ps)
    requires InnerStart(found, 0) == 0 < |found| && MatchEnd(found, 0) == |found|
    ensures Tidy(suffixes, ps) && Source(ps) == found && ps != []
  {
    hide LocalEnd, DomainRun, DotRuns, Boundary, Tidy, DomainPieces, Labelled;
    var a := LocalEnd(found, 0);
    var local, domain := found[0..a], found[a + 1..|found|];
    assert ps == ps[0..0 + AddressCount(suffixes, local, domain)];
    AddressLaws(suffixes, local, domain, ps);
    CutFound(found, a);
  }

  /** A scan of well spaced addresses, from position i on. */
  predicate TidyFrom(suffixes: Suffixes, text: string, i: nat, ps: seq<Piece>)
    requires i <= |text|
  {
    && Tidy(suffixes, ps) && Source(ps) == text[i..]
    && (ps != [] <==> i < |text|)
    && (i < |text| && !MatchAt(text, i) ==> ps[0] == Lit(text[i]))
  }

  lemma TidyFirst(suffixes: Suffixes, text: string, i: nat, ps: seq<Piece>)
    requires i <= |text| && TidyFrom(suffixes, text, i, ps)
    ensures Tidy(suffixes, ps) && Source(ps) == text[i..] && (ps != [] <==> i < |text|)
    ensures i < |text| && !MatchAt(text, i) ==> ps[0] == Lit(text[i])
    ensures i < |text| && !MatchAt(text, i) && !IsLetter(text[i]) ==> IsBreak(ps[0])
  {
  }

  lemma SourceCut(text: string, i: nat, e: nat, a: seq<Piece>, b: seq<Piece>)
    requires i <= e <= |text| && Source(a) == text[i..e] && Source(b) == text[e..]
    ensures Source(a + b) == text[i..]
  {
    hide *;
    TextsConcat(a, b);
    assert text[i..] == text[i..e] + text[e..];
  }

  /** A match does not end before a dot and another label. */
  lemma {:induction false} DotRunsIsAll(text: string, q: nat)
    requires q <= |text|
    ensures var e := DotRuns(text, q); e + 1 < |text| && text[e] == '.' ==> !IsDomainChar(text[e + 1])
    decreases |text| - q
  {
    if q < |text| && text[q] == '.' && DomainRun(text, q + 1) > q + 1 {
      DotRunsIsAll(text, DomainRun(text, q + 1));
    }
  }

  lemma MatchIsAll(text: string, i: nat)
    requires MatchAt(text, i)
    ensures var e := MatchEnd(text, i); e + 1 < |text| && text[e] == '.' ==> !IsLetter(text[e + 1])
  {
    DotRunsIsAll(text, DomainRun(text, LocalEnd(text, i) + 1));
  }

  lemma HeadMeetsRest(text: string, e: nat, head: seq<Piece>, rest: seq<Piece>)
    requires e <= |text| && Source(rest) == text[e..] && (e < |text| ==> !IsLetter(text[e]))
    requires rest != [] ==> e < |text| && rest[0] == Lit(text[e])
    requires e + 1 < |text| && text[e] == '.' ==> !IsLetter(text[e + 1])
    ensures Meets(head, rest)
  {
  }

  lemma TidyWithMatch(suffixes: Suffixes, text: string, i: nat, head: seq<Piece>, rest: seq<Piece>)
    requires i < |text| && MatchAt(text, i) && MatchEnd(text, i) <= |text|
    requires Tidy(suffixes, head) && Source(head) == text[i..MatchEnd(text, i)] && head != []
    requires TidyFrom(suffixes, text, MatchEnd(text, i), rest)
    requires MatchEnd(text, i) < |text| ==> !MatchAt(text, MatchEnd(text, i))
    ensures TidyFrom(suffixes, text, i, head + rest)
  {
    hide MatchAt, MatchEnd, Tidy, Source, IsBreak, Meets;
    var e := MatchEnd(text, i);
    MatchStops(text, i);
    MatchIsAll(text, i);
    TidyFirst(suffixes, text, e, rest);
    BreakAsksNothing(rest);
    HeadMeetsRest(text, e, head, rest);
    TidyConcat(suffixes, head, rest);
    SourceCut(text, i, e, head, rest);
  }

  lemma BreakAsksNothing(ps: seq<Piece>)
    ensures ps != [] && IsBreak(ps[0]) ==> !Asks(ps[0])
  {
  }

  lemma TidyWithLit(suffixes: Suffixes, text: string, i: nat, rest: seq<Piece>)
    requires i < |text| && !MatchAt(text, i) && TidyFrom(suffixes, text, i + 1, rest)
    requires i + 1 < |text| && MatchAt(text, i + 1) ==> !IsLetter(text[i])
    ensures TidyFrom(suffixes, text, i, [Lit(text[i])] + rest)
  {
    hide MatchAt, Tidy, Source;
    var p := Lit(text[i]);
    OneText(p);
    OneLitIsTidy(suffixes, text[i]);
    TidyConcat(suffixes, [p], rest);
    TextsConcat([p], rest);
    CutFirst(text, i);
  }

  lemma CutFirst(text: string, i: nat)
    requires i < |text|
    ensures text[i..] == [text[i]] + text[i + 1..]
  {
  }

  /** With addresses well spaced, redaction changes labels only, and every label stands apart. */
  lemma {:induction false} ScanIsTidy(suffixes: Suffixes, text: string, i: nat, afterMatch: bool, ps: seq<Piece>)
    requires i <= |text| && EmailScans(suffixes, text, i, ps) && Spaced(text, i, afterMatch)
    ensures TidyFrom(suffixes, text, i, ps)
    decreases |text| - i
  {
    hide MatchPieces, MatchCount, TidyFrom, LocalEnd, DotRuns, DomainRun;
    if i == |text| {
      NothingIsTidy(suffixes, text);
    } else if MatchAt(text, i) {
      var e := MatchEnd(text, i);
      var n := MatchCount(suffixes, text[i..e]);
      WholeMatch(suffixes, text, i, ps[..n]);
      ScanIsTidy(suffixes, text, e, true, ps[n..]);
      TidyWithMatch(suffixes, text, i, ps[..n], ps[n..]);
      assert ps == ps[..n] + ps[n..];
    } else {
      ScanIsTidy(suffixes, text, i + 1, false, ps[1..]);
      TidyWithLit(suffixes, text, i, ps[1..]);
      assert ps == [ps[0]] + ps[1..];
    }
  }

  lemma NothingIsTidy(suffixes: Suffixes, text: string)
    ensures TidyFrom(suffixes, text, |text|, [])
  {
  }

  lemma OneLitIsTidy(suffixes: Suffixes, c: char)
    ensures Tidy(suffixes, [Lit(c)])
  {
  }

  predicate NoEmptyLabel(labels: seq<string>)
  {
    forall i :: 0 <= i < |labels| ==> labels[i] != ""
  }

  lemma SplitAtDot(a: string, b: string)
    requires '.' !in a
    ensures Split(a) == [a] && Split(a + "." + b) == [a] + Split(b)
  {
    hide *;
    SplitWord(a);
    SplitBesideDot(a, b);
  }

  lemma OneLabel(part: string)
    requires part != ""
    ensures NoEmptyLabel([part])
  {
  }

  lemma MoreLabels(part: string, labels: seq<string>)
    requires part != "" && NoEmptyLabel(labels)
    ensures NoEmptyLabel([part] + labels)
  {
  }

  lemma {:induction false} FurtherLabels(text: string, q: nat, run: string)
    requires q <= |text| && run != "" && '.' !in run
    ensures NoEmptyLabel(Split(run + text[q..DotRuns(text, q)]))
    decreases |text| - q
  {
    hide IsDomainChar, DomainRun, Split, NoEmptyLabel;
    var e := DotRuns(text, q);
    if e == q {
      SplitAtDot(run, "");
      assert run + text[q..e] == run;
      OneLabel(run);
    } else {
      var r := DomainRun(text, q + 1);
      NoDotInRun(text, q + 1);
      FurtherLabels(text, r, text[q + 1..r]);
      SplitAtDot(run, text[q + 1..r] + text[r..e]);
      MoreLabels(run, Split(text[q + 1..r] + text[r..e]));
      assert text[q..e] == "." + (text[q + 1..r] + text[r..e]);
      assert run + text[q..e] == run + "." + (text[q + 1..r] + text[r..e]);
    }
  }

  lemma NoDotInRun(text: string, i: nat)
    requires i <= |text|
    ensures '.' !in text[i..DomainRun(text, i)]
  {
  }

  /** The domain of an address has no empty label. */
  lemma DomainHasNoEmptyLabel(text: string, i: nat)
    requires MatchAt(text, i)
    ensures NoEmptyLabel(Split(text[LocalEnd(text, i) + 1..MatchEnd(text, i)]))
  {
    hide *;
    MatchHasRun(text, i);
    var a, e := LocalEnd(text, i), MatchEnd(text, i);
    var r := DomainRun(text, a + 1);
    NoDotInRun(text, a + 1);
    FurtherLabels(text, r, text[a + 1..r]);
    CutBetween(text, a + 1, r, e);
  }

  lemma CutBetween(text: string, i: nat, j: nat, k: nat)
    requires i <= j <= k <= |text|
    ensures text[i..k] == text[i..j] + text[j..k]
  {
  }

  /** The first label of a domain, and where the domain ends. */
  lemma MatchHasRun(text: string, i: nat)
    requires MatchAt(text, i)
    ensures i <= |text|
    ensures var a := LocalEnd(text, i);
            && a + 1 <= |text|
            && var r := DomainRun(text, a + 1);
               a + 1 < r <= MatchEnd(text, i) <= |text| && MatchEnd(text, i) == DotRuns(text, r)
  {
  }
}
