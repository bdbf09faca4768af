/**
 piiplugin/plugin.go: three filters over one table, user names first, then mail addresses, then host
 names. What one redaction did is recorded layer by layer; undoing it takes one pass for each layer.
 */
module PiiLaws {
  import opened Text
  import opened Casing
  import opened Table
  import opened Unredaction
  import opened Pieces
  import opened RoundTrip
  import opened NameScan
  import opened NameLaws
  import opened EmailScan
  import opened EmailLaws

  datatype Layer = Off | Names(names: seq<string>) | Addresses(suffixes: map<string, string>)

  /** The enabled filters; the address filter of the composite keeps all top-level domains. */
  datatype Filters = Filters(users: Layer, email: Layer, hosts: Layer)

  predicate ValidLayer(layer: Layer)
  {
    match layer
    case Off => true
    case Names(names) => WordEnds(names)
    case Addresses(suffixes) => suffixes == map[]
  }

  predicate ValidFilters(f: Filters)
  {
    && ValidLayer(f.users) && ValidLayer(f.email) && ValidLayer(f.hosts)
    && !f.users.Addresses? && !f.email.Names? && !f.hosts.Addresses?
  }

  /** What one filter makes of a text. */
  ghost predicate Scanned(layer: Layer, text: string, ps: seq<Piece>)
  {
    match layer
    case Off => ps == Lits(text)
    case Names(names) => Scans(names, text, 0, ps)
    case Addresses(suffixes) => EmailScans(suffixes, text, 0, ps)
  }

  function Count(layer: Layer): nat { if layer.Off? then 0 else 1 }

  /** Number of enabled filters, each of which contributes one pass to unredaction. */
  function Enabled(f: Filters): nat { Count(f.users) + Count(f.email) + Count(f.hosts) }

  /** The pieces of the three layers. */
  datatype Run = Run(users: seq<Piece>, email: seq<Piece>, hosts: seq<Piece>)
  {
    /** All calls in order. */
    function All(): seq<Piece> { users + email + hosts }

    function Redacted(): string { Out(hosts) }
  }

  /** Every filter works on what the one before it made. */
  ghost predicate Redaction(f: Filters, text: string, run: Run)
  {
    && Scanned(f.users, text, run.users)
    && Scanned(f.email, Out(run.users), run.email)
    && Scanned(f.hosts, Out(run.email), run.hosts)
  }

  /** The addresses that the mail filter is given are well spaced. */
  predicate WellSpaced(layer: Layer, text: string)
  {
    layer.Addresses? ==> Spaced(text, 0, false)
  }

  /** A filter replaces whole stretches of text between characters that stay and are no letters. */
  lemma LayerIsTidy(layer: Layer, text: string, ps: seq<Piece>)
    requires ValidLayer(layer) && Scanned(layer, text, ps) && WellSpaced(layer, text)
    ensures Plain(ps) && Flanked(ps) && Source(ps) == text
  {
    hide Scans, EmailScans, Spaced, WordEnds, Tidy;
    assert text[0..] == text;
    match layer
    case Off =>
      LitsTexts(text);
    case Names(names) =>
      ScansSource(names, text, 0, ps);
      ScanIsFlanked(names, text, 0, ps);
    case Addresses(suffixes) =>
      ScanIsTidy(suffixes, text, 0, false, ps);
      TidyFirst(suffixes, text, 0, ps);
      TidyIsPlain(ps);
  }

  /** One layer: k more passes undo it, if k passes undo the layers below it. */
  lemma LayerIsUndone(layer: Layer, below: string, ps: seq<Piece>, m: Entries, k: nat, text: string)
    requires ValidLayer(layer) && Scanned(layer, below, ps) && WellSpaced(layer, below)
    requires LetterKeys(m) && EntriesIn(m, ps) && NoKeyIn(m, text) && Passes(m, k, below) == text
    ensures Passes(m, k + Count(layer), Out(ps)) == text
  {
    hide Scans, EmailScans, Spaced, WordEnds, LetterKeys, EntriesIn, NoKeyIn, Passes;
    LayerIsTidy(layer, below, ps);
    if layer.Off? {
      LitsTexts(below);
    } else {
      PeelsOff(m, k, ps);
    }
  }

  lemma PlainThrice(a: seq<Piece>, b: seq<Piece>, c: seq<Piece>)
    requires Plain(a) && Plain(b) && Plain(c)
    ensures Plain(a + b + c)
  {
  }

  lemma EntriesOfParts(m: Entries, a: seq<Piece>, b: seq<Piece>, c: seq<Piece>)
    requires EntriesIn(m, a + b + c)
    ensures EntriesIn(m, a) && EntriesIn(m, b) && EntriesIn(m, c)
  {
    var all := a + b + c;
    assert forall i :: 0 <= i < |a| ==> a[i] == all[i];
    assert forall i :: 0 <= i < |b| ==> b[i] == all[|a| + i];
    assert forall i :: 0 <= i < |c| ==> c[i] == all[|a| + |b| + i];
  }

  /** What is assumed of the words drawn and of the texts replaced, for a whole run. */
  ghost predicate GoodRun(f: Filters, m: Entries, text: string, fullInput: string, run: Run)
  {
    && ValidFilters(f) && Stable(m) && LetterKeys(m)
    && Redaction(f, text, run) && WellSpaced(f.email, Out(run.users))
    && Calls(m, run.All(), fullInput) && SeparatedCalls(m, run.All())
  }

  /** A run leaves the table stable, loses no entry, and can find all it replaced. */
  lemma RunKeepsTable(f: Filters, m: Entries, text: string, fullInput: string, run: Run)
    requires GoodRun(f, m, text, fullInput, run)
    ensures var larger := After(m, run.All());
            && Stable(larger) && LetterKeys(larger) && Extends(m, larger) && EntriesIn(larger, run.All())
    ensures Plain(run.All())
  {
    hide Stable, LetterKeys, Calls, SeparatedCalls, Scanned, Plain;
    LayerIsTidy(f.users, text, run.users);
    LayerIsTidy(f.email, Out(run.users), run.email);
    LayerIsTidy(f.hosts, Out(run.email), run.hosts);
    PlainThrice(run.users, run.email, run.hosts);
    CallsKeepStable(m, run.All(), fullInput);
  }

  /**
   The layered round trip: with any subset of the filters enabled, as many passes as there are enabled
   filters restore the text, on the final table or on any later one that still has its entries, as
   long as no key of that table occurs in the text.
   */
  lemma LayeredRoundTrip(f: Filters, m: Entries, text: string, fullInput: string, run: Run, later: Entries)
    requires GoodRun(f, m, text, fullInput, run)
    requires Extends(After(m, run.All()), later) && LetterKeys(later) && NoKeyIn(later, text)
    ensures Passes(later, Enabled(f), run.Redacted()) == text
  {
    hide Stable, LetterKeys, Calls, SeparatedCalls, Scanned, NoKeyIn, Extends, EntriesIn, Spaced;
    RunKeepsTable(f, m, text, fullInput, run);
    ExtendsKnows(After(m, run.All()), later, run.All());
    EntriesOfParts(later, run.users, run.email, run.hosts);
    LayerIsUndone(f.users, text, run.users, later, 0, text);
    LayerIsUndone(f.email, Out(run.users), run.email, later, Count(f.users), text);
    LayerIsUndone(f.hosts, Out(run.email), run.hosts, later, Count(f.users) + Count(f.email), text);
  }

  /** No text stands for itself. */
  ghost predicate NoneForItself(m: Entries)
  {
    forall key :: key in m ==> m[key] != key
  }

  lemma FoldSame(key: string, original: string)
    requires CasedLike(original, key) && IsLetters(key) && Fold(key) == Fold(original)
    ensures key == original
  {
  }

  lemma KeyForItself(m: Entries, key: string)
    requires Stable(m) && key in m && DotFree(key) && Fold(m[key]) == Fold(key)
    ensures m[key] == key
  {
    assert StableKey(m, key);
    FoldSame(key, m[key]);
  }

  /** Asked for a key, the table answers with that key if and only if the key stands for itself. */
  lemma AnswersItselfIff(m: Entries, original: string, fullInput: string, rep: string)
    requires Stable(m) && OneKeyEach(m) && original in m && DotFree(original)
    requires MayReturn(m, original, fullInput, rep)
    ensures rep == original <==> m[original] == original
  {
    if m[original] == original {
      assert Stands(m, original, original);
    } else if !Known(m, original) && KnownUpToCase(m, original) && rep == original {
      var key :| key in m && StandsUpToCase(m, key, original) && rep == MatchCased(original, key);
      MatchCasedKeepsLetters(original, key);
      assert SameName(m, key, original);
      KeyForItself(m, original);
    }
  }

  lemma {:induction false} CallsKeepOneKeyEach(m: Entries, ps: seq<Piece>, fullInput: string)
    requires OneKeyEach(m) && Plain(ps) && Calls(m, ps, fullInput)
    ensures OneKeyEach(After(m, ps))
    decreases |ps|
  {
    hide OneKeyEach, MayReturn;
    if ps != [] {
      if ps[0].Hit? {
        KeepsOneKeyEach(m, ps[0].orig, fullInput, ps[0].rep);
      }
      CallsKeepOneKeyEach(Put(m, ps[0]), ps[1..], fullInput);
    }
  }

  /** The call for one piece of a run, on the table that the pieces before it have left. */
  lemma CallAt(m: Entries, ps: seq<Piece>, k: nat, fullInput: string)
    requires k < |ps| && ps[k].Hit? && Calls(m, ps, fullInput) && SeparatedCalls(m, ps)
    ensures Calls(m, ps[..k], fullInput) && SeparatedCalls(m, ps[..k])
    ensures MayReturn(After(m, ps[..k]), ps[k].orig, fullInput, ps[k].rep)
  {
    hide MayReturn, Separated;
    assert ps == ps[..k] + ps[k..];
    CallsConcat(m, ps[..k], ps[k..], fullInput);
    assert ps[k..][0] == ps[k];
  }

  /** The answer for an earlier replacement of the same run. */
  lemma AskedAgain(m: Entries, ps: seq<Piece>, i: nat, k: nat, fullInput: string)
    requires Stable(m) && LetterKeys(m) && OneKeyEach(m) && Plain(ps)
    requires Calls(m, ps, fullInput) && SeparatedCalls(m, ps)
    requires i < k < |ps| && ps[i].Hit? && ps[k].Hit? && ps[k].orig == ps[i].rep
    ensures ps[k].rep == ps[k].orig <==> ps[i].rep == ps[i].orig
  {
    hide Stable, OneKeyEach, MayReturn, Calls, SeparatedCalls;
    var front := ps[..k];
    CallAt(m, ps, k, fullInput);
    CallsKeepStable(m, front, fullInput);
    CallsKeepOneKeyEach(m, front, fullInput);
    assert front[i] == ps[i] && EntryIn(After(m, front), front[i]);
    LetterKeyHasNoDot(After(m, front), ps[i].rep);
    AnswersItselfIff(After(m, front), ps[k].orig, fullInput, ps[k].rep);
  }

  lemma LetterKeyHasNoDot(m: Entries, key: string)
    requires LetterKeys(m) && key in m
    ensures DotFree(key)
  {
    forall i | 0 <= i < |key|
      ensures key[i] != '.'
    {
      assert IsLetter(key[i]);
    }
  }

  /**
   A user name that is part of an address: the mail filter, given the replacement of that name, keeps it
   if and only if the name stands for itself. Any other name is replaced once more.
   */
  lemma MailKeepsReplacementIff(f: Filters, m: Entries, text: string, fullInput: string, run: Run, i: nat, j: nat)
    requires GoodRun(f, m, text, fullInput, run) && OneKeyEach(m)
    requires i < |run.users| && run.users[i].Hit?
    requires j < |run.email| && run.email[j].Hit? && run.email[j].orig == run.users[i].rep
    ensures run.email[j].rep == run.users[i].rep <==> run.users[i].orig == run.users[i].rep
  {
    GoodRunCalls(f, m, text, fullInput, run);
    hide *;
    RunKeepsTable(f, m, text, fullInput, run);
    InAll(run, i, j);
    AskedAgain(m, run.All(), i, |run.users| + j, fullInput);
  }

  lemma GoodRunCalls(f: Filters, m: Entries, text: string, fullInput: string, run: Run)
    requires GoodRun(f, m, text, fullInput, run)
    ensures Stable(m) && LetterKeys(m) && Calls(m, run.All(), fullInput) && SeparatedCalls(m, run.All())
  {
  }

  lemma InAll(run: Run, i: nat, j: nat)
    requires i < |run.users| && j < |run.email|
    ensures var ps := run.All();
            && |run.users| + j < |ps| && ps[i] == run.users[i] && ps[|run.users| + j] == run.email[j]
  {
  }

  /** On a table with no entry for itself, as a new one is, no user name in the input is left as it is. */
  lemma NoUserStandsForItself(f: Filters, m: Entries, text: string, fullInput: string, run: Run, i: nat)
    requires GoodRun(f, m, text, fullInput, run) && NoneForItself(m) && Contains(fullInput, text)
    requires i < |run.users| && run.users[i].Hit?
    ensures run.users[i].orig != run.users[i].rep
  {
    GoodRunCalls(f, m, text, fullInput, run);
    UsersOfRun(f, m, text, fullInput, run);
    hide *;
    CallsKeepStable(m, run.users, fullInput);
    HitsAreInput(run.users, fullInput);
    CallsKeepProper(m, run.users, fullInput);
    NotItself(After(m, run.users), run.users, i);
  }

  lemma CallsOfUsers(m: Entries, run: Run, fullInput: string)
    requires Calls(m, run.All(), fullInput) && SeparatedCalls(m, run.All())
    ensures Calls(m, run.users, fullInput) && SeparatedCalls(m, run.users)
  {
    hide Calls, SeparatedCalls, After;
    assert run.All() == run.users + (run.email + run.hosts);
    CallsConcat(m, run.users, run.email + run.hosts, fullInput);
  }

  lemma UsersOfRun(f: Filters, m: Entries, text: string, fullInput: string, run: Run)
    requires GoodRun(f, m, text, fullInput, run)
    ensures Plain(run.users) && Source(run.users) == text
    ensures Calls(m, run.users, fullInput) && SeparatedCalls(m, run.users)
  {
    hide Calls, SeparatedCalls, Scanned, Plain, Source;
    LayerIsTidy(f.users, text, run.users);
    CallsOfUsers(m, run, fullInput);
  }

  lemma NotItself(m: Entries, ps: seq<Piece>, i: nat)
    requires EntriesIn(m, ps) && NoneForItself(m) && i < |ps| && ps[i].Hit?
    ensures ps[i].orig != ps[i].rep
  {
    assert EntryIn(m, ps[i]);
  }

  /** So the mail filter replaces every such replacement once more. */
  lemma MailReplacesAgain(f: Filters, m: Entries, text: string, fullInput: string, run: Run, i: nat, j: nat)
    requires GoodRun(f, m, text, fullInput, run) && OneKeyEach(m) && NoneForItself(m) && Contains(fullInput, text)
    requires i < |run.users| && run.users[i].Hit?
    requires j < |run.email| && run.email[j].Hit? && run.email[j].orig == run.users[i].rep
    ensures run.email[j].rep != run.users[i].rep
  {
    hide *;
    MailKeepsReplacementIff(f, m, text, fullInput, run, i, j);
    NoUserStandsForItself(f, m, text, fullInput, run, i);
  }

  /** Every answer differs from what was asked for, if that was part of the input or is itself a key. */
  lemma NeverReturnsItself(m: Entries, original: string, fullInput: string, rep: string)
    requires Stable(m) && NoneForItself(m) && MayReturn(m, original, fullInput, rep)
    requires Contains(fullInput, original) || original in m
    ensures rep != original && NoneForItself(m[rep := original])
  {
    if Known(m, original) {
    } else if KnownUpToCase(m, original) {
      var key :| key in m && StandsUpToCase(m, key, original) && rep == MatchCased(original, key);
      assert StableKey(m, key);
      if rep == original {
        MatchCasedKeepsLetters(original, key);
        FoldSame(key, m[key]);
        assert false;
      }
    }
  }

  lemma {:induction false} CallsKeepProper(m: Entries, ps: seq<Piece>, fullInput: string)
    requires Stable(m) && LetterKeys(m) && NoneForItself(m) && Plain(ps)
    requires Calls(m, ps, fullInput) && SeparatedCalls(m, ps)
    requires forall i :: 0 <= i < |ps| && ps[i].Hit? ==> Contains(fullInput, ps[i].orig)
    ensures NoneForItself(After(m, ps))
    decreases |ps|
  {
    hide Stable, LetterKeys, MayReturn, Separated, Contains, NoneForItself;
    if ps != [] {
      if ps[0].Hit? {
        StepKeeps(m, ps[0], fullInput);
        NeverReturnsItself(m, ps[0].orig, fullInput, ps[0].rep);
      }
      CallsKeepProper(Put(m, ps[0]), ps[1..], fullInput);
    }
  }

  lemma StableShrinks(m: Entries)
    requires Stable(m) && LetterKeys(m) && NoneForItself(m)
    ensures Shrinking(m)
  {
  }

  /** What a filter replaces is part of the text. */
  lemma {:induction false} ReplacesPart(ps: seq<Piece>, i: nat)
    requires i < |ps|
    ensures Contains(Source(ps), SourceOf(ps[i]))
  {
    hide *;
    var p, rest := SourceOf(ps[0]), Source(ps[1..]);
    FirstText(ps);
    if i == 0 {
      ContainsItself(p);
      ContainsPart("", p, rest, p);
      assert "" + p + rest == p + rest;
    } else {
      ReplacesPart(ps[1..], i - 1);
      ContainsPart(p, rest, "", SourceOf(ps[i]));
      assert p + rest + "" == p + rest;
    }
  }

  lemma HitsAreInput(ps: seq<Piece>, fullInput: string)
    requires Contains(fullInput, Source(ps))
    ensures forall i :: 0 <= i < |ps| && ps[i].Hit? ==> Contains(fullInput, ps[i].orig)
  {
    hide Contains, Source;
    forall i | 0 <= i < |ps| && ps[i].Hit?
      ensures Contains(fullInput, ps[i].orig)
    {
      ReplacesPart(ps, i);
      ContainsFurther(fullInput, Source(ps), ps[i].orig);
    }
  }

  /**
   One filter by itself, for names or for addresses: unredaction on the final table restores the text if
   and only if no key of that table stands in a stretch of the text that was not replaced.
   */
  lemma LayerRoundTripIff(layer: Layer, m: Entries, text: string, fullInput: string, ps: seq<Piece>)
    requires ValidLayer(layer) && Scanned(layer, text, ps) && WellSpaced(layer, text) && Contains(fullInput, text)
    requires Stable(m) && LetterKeys(m) && NoneForItself(m)
    requires Calls(m, ps, fullInput) && SeparatedCalls(m, ps)
    ensures var later := After(m, ps);
            Unredacted(later, Out(ps)) == text <==> Quiet(later, ps)
  {
    hide *;
    LayerIsTidy(layer, text, ps);
    CallsKeepStable(m, ps, fullInput);
    HitsAreInput(ps, fullInput);
    CallsKeepProper(m, ps, fullInput);
    StableShrinks(After(m, ps));
    RestoredIffQuiet(After(m, ps), ps);
  }
}
