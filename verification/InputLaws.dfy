/**
 piiplugin/plugin.go: the composite filter seen from its input. What is assumed of a run is said of the
 text that goes in, and what is promised holds of the text that comes out of all filters.
 */
module InputLaws {
  import opened Text
  import opened Table
  import opened Unredaction
  import opened Pieces
  import opened NameScan
  import opened NameLaws
  import opened EmailScan
  import opened EmailLaws
  import opened Spacing
  import opened PiiLaws

  /** User names that are replaced before addresses consist of letters and digits. */
  predicate NamesAreWords(f: Filters)
  {
    f.users.Names? && f.email.Addresses? ==> AlnumNames(f.users.names)
  }

  /** The assumptions of the layered round trip, in terms of the input. */
  ghost predicate GoodInput(f: Filters, m: Entries, text: string, fullInput: string, run: Run)
  {
    && ValidFilters(f) && NamesAreWords(f) && Stable(m) && LetterKeys(m)
    && WellSpaced(f.email, text) && Redaction(f, text, run)
    && Calls(m, run.All(), fullInput) && SeparatedCalls(m, run.All())
  }

  lemma EntriesAreWords(m: Entries, ps: seq<Piece>)
    requires LetterKeys(m) && EntriesIn(m, ps)
    ensures forall k :: 0 <= k < |ps| && ps[k].Hit? ==> AlnumWord(ps[k].rep)
  {
    forall k | 0 <= k < |ps| && ps[k].Hit?
      ensures AlnumWord(ps[k].rep)
    {
      assert EntryIn(m, ps[k]);
    }
  }

  /** A names filter leaves addresses as well spaced as they were. */
  lemma NamesKeepSpacing(names: seq<string>, m: Entries, text: string, fullInput: string, ps: seq<Piece>)
    requires WordEnds(names) && AlnumNames(names) && Scans(names, text, 0, ps)
    requires Stable(m) && LetterKeys(m) && Calls(m, ps, fullInput) && SeparatedCalls(m, ps)
    ensures Spaced(text, 0, false) <==> Spaced(Out(ps), 0, false)
  {
    hide *;
    assert text[0..] == text;
    ScansSource(names, text, 0, ps);
    CallsKeepStable(m, ps, fullInput);
    EntriesAreWords(After(m, ps), ps);
    ScanHasWordHits(names, text, 0, ps);
    SpacedCarriesOver(ps);
  }

  lemma LayersOfRun(f: Filters, text: string, run: Run)
    requires Redaction(f, text, run)
    ensures Scanned(f.users, text, run.users)
    ensures f.users.Names? ==> Scans(f.users.names, text, 0, run.users)
    ensures f.users.Off? ==> run.users == Lits(text)
    ensures Scanned(f.email, Out(run.users), run.email) && Scanned(f.hosts, Out(run.email), run.hosts)
    ensures f.hosts.Names? ==> Scans(f.hosts.names, Out(run.email), 0, run.hosts)
  {
    hide Scans, EmailScans;
  }

  /** So the mail filter, too, finds well spaced addresses. */
  lemma GoodInputIsGood(f: Filters, m: Entries, text: string, fullInput: string, run: Run)
    requires GoodInput(f, m, text, fullInput, run)
    ensures GoodRun(f, m, text, fullInput, run)
  {
    hide Stable, LetterKeys, Redaction, Calls, SeparatedCalls, Spaced, WordEnds, AlnumNames, Scans, Out;
    LayersOfRun(f, text, run);
    if f.email.Addresses? {
      if f.users.Off? {
        LitsTexts(text);
      } else {
        CallsOfUsers(m, run, fullInput);
        NamesKeepSpacing(f.users.names, m, text, fullInput, run.users);
      }
    }
  }

  /**
   The layered round trip, from the input: if its addresses are well spaced, no key at first and no key
   adapted to another casing occurs in it, and it was part of what drawn words were checked against, then
   as many passes as there are filters restore it.
   */
  lemma InputRoundTrip(f: Filters, m: Entries, text: string, fullInput: string, run: Run)
    requires GoodInput(f, m, text, fullInput, run)
    requires Contains(fullInput, text) && NoKeyIn(m, text) && AdaptedAvoid(m, run.All(), text)
    ensures Passes(After(m, run.All()), Enabled(f), run.Redacted()) == text
  {
    GoodInputIsGood(f, m, text, fullInput, run);
    GoodRunCalls(f, m, text, fullInput, run);
    hide *;
    RunKeepsTable(f, m, text, fullInput, run);
    CheckedKeysAvoidIff(m, run.All(), fullInput, text);
    SelfExtends(After(m, run.All()));
    LayeredRoundTrip(f, m, text, fullInput, run, After(m, run.All()));
  }

  /** No replacement of any layer is part of a listed user or host name. */
  ghost predicate UnlistedRun(f: Filters, run: Run)
  {
    && (f.users.Names? ==> Unlisted(f.users.names, run.users) && Unlisted(f.users.names, run.email)
                           && Unlisted(f.users.names, run.hosts))
    && (f.hosts.Names? ==> Unlisted(f.hosts.names, run.hosts))
  }

  /**
   Redaction by the composite is complete: in what it returns no listed user name and no listed host name
   stands as a whole word, in whatever case.
   */
  lemma NoNameIsLeftInRun(f: Filters, m: Entries, text: string, fullInput: string, run: Run)
    requires GoodRun(f, m, text, fullInput, run) && UnlistedRun(f, run)
    ensures f.users.Names? ==> NowhereAlone(f.users.names, run.Redacted())
    ensures f.hosts.Names? ==> NowhereAlone(f.hosts.names, run.Redacted())
  {
    hide Stable, LetterKeys, Redaction, Calls, SeparatedCalls, WordEnds, Scans, Unlisted, NowhereAlone, Scanned, Out,
      Spaced, Plain;
    LayersOfRun(f, text, run);
    if f.users.Names? {
      LayerIsTidy(f.email, Out(run.users), run.email);
      LayerIsTidy(f.hosts, Out(run.email), run.hosts);
      NoNameIsLeft(f.users.names, text, run.users);
      NoNameComesBack(f.users.names, Out(run.users), run.email);
      NoNameComesBack(f.users.names, Out(run.email), run.hosts);
    }
    if f.hosts.Names? {
      NoNameIsLeft(f.hosts.names, Out(run.email), run.hosts);
    }
  }
}
