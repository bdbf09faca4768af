/** Concrete runs: a user name inside an address, and two addresses in a row. */
module Witnesses {
  import opened Text
  import opened Casing
  import opened Phonology
  import opened Table
  import opened Unredaction
  import opened Pieces
  import opened NameScan
  import opened EmailScan
  import opened EmailLaws
  import opened EmailShape
  import opened PiiLaws

  /** A table of lower-case words, which hardly needs any thought about case. */
  ghost predicate LowerTable(m: Entries)
  {
    forall key :: key in m ==> key != "" && IsLowerWord(key) && IsLowerWord(m[key]) && |m[key]| <= |key|
  }

  lemma LowerIsFolded(word: string)
    requires IsLowerWord(word)
    ensures Fold(word) == word && IsLetters(word) && DotFree(word)
  {
    assert forall i :: 0 <= i < |word| ==> ToLower(word[i]) == word[i];
  }

  /** A new word for an original that is new as well. */
  predicate Fresh(m: Entries, original: string, fullInput: string, word: string)
  {
    && IsLowerWord(original) && 0 < |original| <= 8 && (forall key :: key in m ==> m[key] != original)
    && IsLowerWord(word) && |word| == 8 && word !in m && |fullInput| < 8
  }

  lemma TooShort(fullInput: string, word: string)
    requires |fullInput| < |word|
    ensures !Contains(fullInput, word)
  {
  }

  lemma LowerCased(original: string, word: string)
    requires IsLowerWord(original) && original != "" && IsLowerWord(word)
    ensures MatchCased(original, word) == word
  {
    assert IsLetter(original[0]) && AllLower(original);
    assert forall i :: 0 <= i < |word| ==> CasedChar(original, i, word[i]) == word[i];
  }

  lemma NothingKnown(m: Entries, original: string)
    requires LowerTable(m) && IsLowerWord(original) && forall key :: key in m ==> m[key] != original
    ensures NeedsDraw(m, original)
  {
    LowerIsFolded(original);
    forall key | key in m
      ensures !Stands(m, key, original) && !StandsUpToCase(m, key, original)
    {
      LowerIsFolded(m[key]);
    }
  }

  lemma NothingCollides(m: Entries, word: string)
    requires LowerTable(m) && IsLowerWord(word) && word !in m
    ensures NewUpToCase(m, word)
  {
    LowerIsFolded(word);
    forall key | key in m
      ensures Fold(key) != Fold(word)
    {
      LowerIsFolded(key);
    }
  }

  lemma FreshIsReturned(m: Entries, original: string, fullInput: string, word: string)
    requires LowerTable(m) && Fresh(m, original, fullInput, word)
    ensures MayReturn(m, original, fullInput, word) && Separated(m, original, word)
    ensures LowerTable(m[word := original])
  {
    hide Contains, MatchCased, NewUpToCase, Known, KnownUpToCase;
    NothingKnown(m, original);
    NothingCollides(m, word);
    TooShort(fullInput, word);
    LowerCased(original, word);
    assert IsLowerWord(word) && |word| == NewLength(original) && word == MatchCased(original, word);
  }

  /** The replacements of a run are fresh on the table as it is by then. */
  predicate AllFresh(m: Entries, ps: seq<Piece>, fullInput: string)
    decreases |ps|
  {
    ps != [] ==>
      && !ps[0].Combo? && (ps[0].Hit? ==> Fresh(m, ps[0].orig, fullInput, ps[0].rep))
      && AllFresh(Put(m, ps[0]), ps[1..], fullInput)
  }

  lemma {:induction false} FreshRun(m: Entries, ps: seq<Piece>, fullInput: string)
    requires LowerTable(m) && AllFresh(m, ps, fullInput)
    ensures Calls(m, ps, fullInput) && SeparatedCalls(m, ps)
    decreases |ps|
  {
    hide Fresh, MayReturn, Separated, LowerTable;
    if ps != [] {
      var p := ps[0];
      if p.Hit? {
        FreshIsReturned(m, p.orig, fullInput, p.rep);
      }
      FreshRun(Put(m, p), ps[1..], fullInput);
    }
  }

  lemma FreshPiece(m: Entries, p: Piece, rest: seq<Piece>, fullInput: string)
    requires !p.Combo? && (p.Hit? ==> Fresh(m, p.orig, fullInput, p.rep)) && AllFresh(Put(m, p), rest, fullInput)
    ensures AllFresh(m, [p] + rest, fullInput)
  {
    assert ([p] + rest)[1..] == rest;
  }

  /** An address without dots. */
  lemma PlainAddress(local: string, domain: string, ps: seq<Piece>)
    requires local != "" && domain != "" && '.' !in local && '.' !in domain
    requires |ps| == 3 && ps[0].Hit? && ps[0].orig == local && ps[1] == Lit('@') && ps[2].Hit? && ps[2].orig == domain
    ensures AddressPieces(map[], local, domain, ps) && AddressCount(map[], local, domain) == 3
  {
    SplitWord(local);
    SplitWord(domain);
    assert PieceCount([local]) == 1 && PieceCount([domain]) == 1;
    assert Labelled([local], ps[..1]) && Labelled([domain], ps[2..]);
  }

  /** A whole match that is such an address. */
  lemma PlainMatch(found: string, a: nat, ps: seq<Piece>)
    requires 0 < a && a + 1 < |found| && '.' !in found && InnerStart(found, 0) == 0
    requires MatchAt(found, 0) && LocalEnd(found, 0) == a && MatchEnd(found, 0) == |found|
    requires |ps| == 3 && ps[0].Hit? && ps[0].orig == found[..a]
    requires ps[1] == Lit('@') && ps[2].Hit? && ps[2].orig == found[a + 1..]
    ensures MatchPieces(map[], found, ps) && MatchCount(map[], found) == 3
  {
    hide LocalEnd, MatchEnd, MatchAt, InnerStart, AddressPieces, AddressCount;
    PlainAddress(found[..a], found[a + 1..], ps);
    assert found[0..a] == found[..a] && found[a + 1..|found|] == found[a + 1..];
    assert ps[..0] == [] == Gones(found[..0]) && ps[3..] == [] == Gones(found[|found|..]) && ps[0..3] == ps;
  }

  function Eight(c: char): string { [c, c, c, c, c, c, c, c] }

  /** One letter, replaced by that letter eight times. */
  function Letter(c: char): Piece { Hit([c], Eight(c)) }

  /** All that is in the table begins with an earlier letter. */
  predicate Earlier(m: Entries, c: char)
  {
    forall key :: key in m ==> key != "" && key[0] < c && m[key] != "" && m[key][0] < c
  }

  lemma LetterIsFresh(m: Entries, c: char, d: char, rest: seq<Piece>, fullInput: string)
    requires Earlier(m, c) && IsLower(c) && c < d && |fullInput| < 8
    requires AllFresh(m[Eight(c) := [c]], rest, fullInput)
    ensures AllFresh(m, [Letter(c)] + rest, fullInput)
  {
    FreshPiece(m, Letter(c), rest, fullInput);
  }

  lemma LaterIsLater(m: Entries, c: char, d: char)
    requires Earlier(m, c) && c < d
    ensures Earlier(m[Eight(c) := [c]], d)
  {
  }

  /** The replacements for a@b+c@d. */
  function TwoAddresses(): seq<Piece>
  {
    [Letter('a')] + ([Lit('@')] + ([Letter('b')] + ([Gone('+')] +
    ([Letter('c')] + ([Lit('@')] + ([Letter('d')] + []))))))
  }

  lemma TwoAddressesAreFresh(fullInput: string)
    requires |fullInput| < 8
    ensures AllFresh(map[], TwoAddresses(), fullInput)
  {
    hide Letter, Eight, AllFresh, Earlier, Put;
    var m0: Entries := map[];
    assert Earlier(m0, 'a') by {
      NothingIsEarlier('a');
    }
    var m1 := m0[Eight('a') := "a"];
    var m2 := m1[Eight('b') := "b"];
    var m3 := m2[Eight('c') := "c"];
    var m4 := m3[Eight('d') := "d"];
    LaterIsLater(m0, 'a', 'b');
    LaterIsLater(m1, 'b', 'c');
    LaterIsLater(m2, 'c', 'd');
    NothingIsFresh(m4, fullInput);
    LetterIsFresh(m3, 'd', 'e', [], fullInput);
    var p6 := [Letter('d')] + [];
    CharIsFresh(m3, Lit('@'), p6, fullInput);
    var p5 := [Lit('@')] + p6;
    LetterIsFresh(m2, 'c', 'd', p5, fullInput);
    var p4 := [Letter('c')] + p5;
    CharIsFresh(m2, Gone('+'), p4, fullInput);
    var p3 := [Gone('+')] + p4;
    LetterIsFresh(m1, 'b', 'c', p3, fullInput);
    var p2 := [Letter('b')] + p3;
    CharIsFresh(m1, Lit('@'), p2, fullInput);
    LetterIsFresh(m0, 'a', 'b', [Lit('@')] + p2, fullInput);
  }

  lemma NothingIsEarlier(c: char)
    ensures Earlier(map[], c)
  {
  }

  lemma NothingIsFresh(m: Entries, fullInput: string)
    ensures AllFresh(m, [], fullInput)
  {
  }

  lemma CharIsFresh(m: Entries, p: Piece, rest: seq<Piece>, fullInput: string)
    requires (p.Lit? || p.Gone?) && AllFresh(m, rest, fullInput)
    ensures AllFresh(m, [p] + rest, fullInput)
  {
    FreshPiece(m, p, rest, fullInput);
  }

  lemma TwoAddressesPieces(ps: seq<Piece>)
    requires ps == TwoAddresses()
    ensures |ps| == 7 && ps[..3] == [Letter('a'), Lit('@'), Letter('b')]
    ensures ps[3..] == [Gone('+'), Letter('c'), Lit('@'), Letter('d')]
  {
    hide Letter;
  }

  lemma FirstIsScanned(found: string, ps: seq<Piece>)
    requires found == "a@b" && ps == [Letter('a'), Lit('@'), Letter('b')]
    ensures MatchPieces(map[], found, ps) && MatchCount(map[], found) == 3
  {
    hide AddressPieces, AddressCount, MatchPieces, MatchCount, InnerStart, DotRuns;
    assert found[..1] == "a" && found[2..] == "b";
    LocalEndIs(found, 0, 1);
    DomainRunIs(found, 2, 3);
    assert MatchAt(found, 0) && MatchEnd(found, 0) == 3 by {
      NothingBehind(found);
    }
    StartsAtOnce(found);
    hide *;
    PlainMatch(found, 1, ps);
  }

  lemma NothingBehind(text: string)
    ensures DotRuns(text, |text|) == |text|
  {
  }

  lemma StartsAtOnce(found: string)
    requires MatchAt(found, 0)
    ensures InnerStart(found, 0) == 0
  {
  }

  lemma SecondIsScanned(found: string, ps: seq<Piece>)
    requires found == "+c@d" && ps == [Gone('+'), Letter('c'), Lit('@'), Letter('d')]
    ensures MatchPieces(map[], found, ps) && MatchCount(map[], found) == 4
  {
    hide AddressPieces, AddressCount, InnerStart, LocalEnd, MatchEnd, MatchAt;
    SecondInner(found);
    var qs := ps[1..4];
    assert found[1..2] == "c" && found[3..4] == "d" && found[..1] == "+";
    PlainAddress("c", "d", qs);
    assert ps[..1] == Gones(found[..1]) && ps[4..] == [] == Gones(found[4..]);
  }

  lemma ScanIs(text: string, i: nat, n: nat, ps: seq<Piece>)
    requires MatchAt(text, i) && n <= |ps| && MatchCount(map[], text[i..MatchEnd(text, i)]) == n
    requires MatchPieces(map[], text[i..MatchEnd(text, i)], ps[..n])
    requires EmailScans(map[], text, MatchEnd(text, i), ps[n..])
    ensures EmailScans(map[], text, i, ps)
  {
    hide MatchAt, MatchEnd, MatchPieces, MatchCount;
  }

  /** The run that loses the plus sign of a@b+c@d can happen. */
  lemma AdjacentRun(text: string)
    requires text == "a@b+c@d"
    ensures var ps := TwoAddresses();
            && EmailScans(map[], text, 0, ps) && Calls(map[], ps, text) && SeparatedCalls(map[], ps)
            && Unredacted(After(map[], ps), Out(ps)) != text
  {
    hide *;
    var ps := TwoAddresses();
    TwoAddressesPieces(ps);
    FirstMatch(text);
    SecondMatch(text);
    FirstIsScanned(text[0..3], ps[..3]);
    SecondIsScanned(text[3..7], ps[3..]);
    assert ps[3..][..4] == ps[3..] && ps[3..][4..] == [];
    NothingScanned(text);
    ScanIs(text, 3, 4, ps[3..]);
    ScanIs(text, 0, 3, ps);
    NothingIsLower();
    TwoAddressesAreFresh(text);
    FreshRun(map[], ps, text);
    AdjacentAddressIsNotRestored(text, ps, text);
  }

  lemma NothingIsLower()
    ensures LowerTable(map[])
  {
  }

  lemma NothingScanned(text: string)
    ensures EmailScans(map[], text, |text|, [])
  {
  }

  /** A user name, its replacement, and what the mail filter puts in the place of that. */
  function UserInAddress(): Run
  {
    var users := [Hit("tux", Eight('a')), Lit('@'), Lit('b')];
    var email := [Hit(Eight('a'), Eight('b')), Lit('@'), Hit("b", Eight('c'))];
    Run(users, email, Lits(Eight('b') + "@" + Eight('c')))
  }

  /** Filters for the user name tux and for addresses. */
  function TuxFilters(): Filters { Filters(Names(["tux"]), Addresses(map[]), Off) }

  lemma {:induction false} CharsAreFresh(m: Entries, ps: seq<Piece>, fullInput: string)
    requires forall i :: 0 <= i < |ps| ==> ps[i].Lit?
    ensures AllFresh(m, ps, fullInput)
    decreases |ps|
  {
    if ps != [] {
      CharsAreFresh(m, ps[1..], fullInput);
    }
  }

  lemma UserHitsAreFresh(m1: Entries, m2: Entries, fullInput: string)
    requires |fullInput| < 8 && m1 == map[Eight('a') := "tux"] && m2 == m1[Eight('b') := Eight('a')]
    ensures Fresh(map[], "tux", fullInput, Eight('a'))
    ensures Fresh(m1, Eight('a'), fullInput, Eight('b'))
    ensures Fresh(m2, "b", fullInput, Eight('c'))
  {
    assert Eight('a')[0] == 'a' && Eight('b')[0] == 'b' && Eight('c')[0] == 'c';
  }

  lemma UserRunPieces(run: Run)
    requires run == UserInAddress()
    ensures run.All() == [Hit("tux", Eight('a'))] + ([Lit('@')] + ([Lit('b')] + ([Hit(Eight('a'), Eight('b'))] +
                         ([Lit('@')] + ([Hit("b", Eight('c'))] + run.hosts)))))
    ensures forall i :: 0 <= i < |run.hosts| ==> run.hosts[i].Lit?
  {
    hide Eight;
  }

  lemma UserRunIsFresh(fullInput: string)
    requires |fullInput| < 8
    ensures AllFresh(map[], UserInAddress().All(), fullInput)
  {
    hide AllFresh, Fresh, Eight, UserInAddress, Run.All;
    var run := UserInAddress();
    UserRunPieces(run);
    var m0: Entries := map[];
    var m1 := m0[Eight('a') := "tux"];
    var m2 := m1[Eight('b') := Eight('a')];
    UserHitsAreFresh(m1, m2, fullInput);
    var p6 := run.hosts;
    CharsAreFresh(m2[Eight('c') := "b"], p6, fullInput);
    FreshPiece(m2, Hit("b", Eight('c')), p6, fullInput);
    var p5 := [Hit("b", Eight('c'))] + p6;
    CharIsFresh(m2, Lit('@'), p5, fullInput);
    var p4 := [Lit('@')] + p5;
    FreshPiece(m1, Hit(Eight('a'), Eight('b')), p4, fullInput);
    var p3 := [Hit(Eight('a'), Eight('b'))] + p4;
    CharIsFresh(m1, Lit('b'), p3, fullInput);
    CharIsFresh(m1, Lit('@'), [Lit('b')] + p3, fullInput);
    FreshPiece(m0, Hit("tux", Eight('a')), [Lit('@')] + ([Lit('b')] + p3), fullInput);
  }

  lemma TuxIsFound(text: string)
    requires text == "tux@b"
    ensures LongestFit(["tux"], text, 0) == 3 && LongestFit(["tux"], text, 3) == LongestFit(["tux"], text, 4) == 0
  {
    var names := ["tux"];
    assert names[1..] == [];
    assert text[0..3] == "tux";
    assert FitsAt("tux", text, 0);
  }

  lemma TuxIsScanned(text: string, users: seq<Piece>)
    requires text == "tux@b" && users == [Hit("tux", Eight('a')), Lit('@'), Lit('b')]
    ensures Scans(["tux"], text, 0, users)
  {
    hide LongestFit, Eight;
    TuxIsFound(text);
    assert text[0..3] == "tux";
    assert users[1..] == [Lit('@'), Lit('b')] && users[1..][1..] == [Lit('b')] && users[1..][1..][1..] == [];
    assert Scans(["tux"], text, 5, users[1..][1..][1..]);
    assert Scans(["tux"], text, 4, users[1..][1..]);
    assert Scans(["tux"], text, 3, users[1..]);
  }

  lemma RedactedUserMatches(text: string)
    requires text == Eight('a') + "@b"
    ensures |text| == 10 && '.' !in text && text[..8] == Eight('a') && text[9..] == "b"
    ensures MatchAt(text, 0) && LocalEnd(text, 0) == 8 && MatchEnd(text, 0) == 10 && IsWord(text[0])
  {
    LocalEndIs(text, 0, 8);
    DomainRunIs(text, 9, 10);
  }

  lemma RedactedUserIsScanned(text: string, email: seq<Piece>)
    requires text == Eight('a') + "@b"
    requires email == [Hit(Eight('a'), Eight('b')), Lit('@'), Hit("b", Eight('c'))]
    ensures EmailScans(map[], text, 0, email) && Spaced(text, 0, false)
  {
    hide *;
    RedactedUserMatches(text);
    StartsAtOnce(text);
    assert text[0..10] == text && email[..3] == email && email[3..] == [];
    PlainMatch(text, 8, email);
    NothingScanned(text);
    ScanIs(text, 0, 3, email);
    OneIsSpaced(text);
  }

  lemma OneIsSpaced(text: string)
    requires MatchAt(text, 0) && MatchEnd(text, 0) == |text| && IsWord(text[0])
    ensures Spaced(text, 0, false)
  {
  }

  lemma ThreePieces(p: Piece, q: Piece, r: Piece)
    ensures Out([p, q, r]) == OutOf(p) + OutOf(q) + OutOf(r)
  {
    hide *;
    assert [p, q, r] == [p] + [q] + [r];
    ThreeSources([p], q, [r]);
    OneText(p);
    OneText(r);
  }

  lemma UserRunRedacts(text: string)
    requires text == "tux@b"
    ensures Redaction(TuxFilters(), text, UserInAddress())
    ensures WellSpaced(TuxFilters().email, Out(UserInAddress().users))
  {
    hide Scans, EmailScans, Eight, Out, Spaced;
    var run := UserInAddress();
    ThreePieces(run.users[0], run.users[1], run.users[2]);
    ThreePieces(run.email[0], run.email[1], run.email[2]);
    TuxIsScanned(text, run.users);
    assert Out(run.users) == Eight('a') + "@b";
    RedactedUserIsScanned(Out(run.users), run.email);
  }

  lemma TuxIsValid(run: Run)
    requires run == UserInAddress()
    ensures ValidFilters(TuxFilters()) && Stable(map[]) && LetterKeys(map[]) && OneKeyEach(map[])
    ensures run.users[0].Hit? && run.email[0].Hit?
    ensures run.email[0].orig == run.users[0].rep != run.email[0].rep
  {
    assert Eight('a')[0] != Eight('b')[0];
  }

  /** The user name tux in tux@b is replaced, and its replacement is replaced again. */
  lemma UserNameIsReplacedTwice(text: string)
    requires text == "tux@b"
    ensures var run := UserInAddress();
            && GoodRun(TuxFilters(), map[], text, text, run)
            && run.users[0].Hit? && run.email[0].Hit?
            && run.email[0].orig == run.users[0].rep != run.email[0].rep
  {
    hide Scanned, Redaction, Stable, LetterKeys, OneKeyEach, ValidFilters, WellSpaced, UserInAddress, TuxFilters, Calls,
      SeparatedCalls, AllFresh, LowerTable, Run.All;
    UserRunRedacts(text);
    UserRunIsFresh(text);
    NothingIsLower();
    FreshRun(map[], UserInAddress().All(), text);
    TuxIsValid(UserInAddress());
  }
}
